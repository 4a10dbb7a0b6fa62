# Meridian, modelled and verified in Dafny

Meridian compiles declarative network policy, ships it to node agents over an xDS stream, and enforces
it with eBPF programs. Each stage has a simple meaning that its fast or distributed form must keep.
This project models those stages and proves that they do, for every input, every interleaving or every
history. `dafny verify dfyconfig.toml` checks all of it.

## How it is laid out

| files | what they hold |
|---|---|
| `Wire`, `Translate`, `TranslateProofs` | identities, rules, documents and plans, with their integer widths; kernel keys and addresses |
| `Store`, `Ads`, `XdsClient`, `Diff`, `Datapath` | the in-memory store with its one-slot watch, the ADS server, the agent client, the snapshot diff, the four-phase kernel map writer; each a class or loop proved against a function of its state |
| `PolicyMapRefinement`, `IdentityMapRefinement`, `IdentityFailures` | what complete, stopped and repeated applications of a plan leave in the two kernel maps |
| `Handshake`, `Protocol`, `ProtocolRuns`, `ProtocolProgress` | the version and nonce handshake, the whole system as a step relation with FIFO channels, its theorems over every run, and that it settles when left alone |
| `PushAcceptance`, `ProtocolConvergence`, `ControlPath` | exactly which pushes the agent accepts, that acceptable content always reaches it, and the classes run as steps of the system |
| `Verdicts`, `Compiler`, `Evaluator`, `CompilerProofs`, `CompiledFields` | the policy compiler, the map evaluator, the first-match oracle, their agreement, and the compiler's contract on the document's own fields |
| `Packet`, `PacketProofs`, `Geneve`, `GeneveProofs` | header parsing, the Geneve option walk, and the in-place stamp and strip over a byte array |
| `PacketBytes`, `OptionBytes`, `TcFields` | what the parsers read and what the tc programs do, on the bytes of the frame and the entries of the maps alone |
| `Tc`, `TcProofs`, `TunnelProofs` | the two tc programs, what they report, and the identity option from the sending one to the receiving one |
| `EndToEnd` | from an accepted document to the action taken on a packet, on one node and from node to node |
| `Telemetry` | the LRU flow aggregator against a specification on the event history alone |
| `Mirror`, `MirrorProofs` | the MeridianPolicy mirror |
| `Schema` | crash-safe adoption of pinned maps |
| `Breaker` | the circuit breaker |
| `Svid` | the SVID rotation schedule |

Mutating the store and notifying its watchers are two steps of the system, as they are two critical
sections in the code; a push re-reads the store once per type; a kernel update may stop after any map
operation; a response may fail to decode; a stream may be replaced at any time. Runs are sequences of
states with the action taken between each two. The system state also records the push last accepted per
type, and the policy keys and identities that stopped kernel updates left changed and no accepted push has
rewritten since (stale and astray below).

## Results that differ from what one might expect

Where a property does not hold of the code as it stands, the code is kept as it is and the exact
condition is proved.

- The verdict validator's flag masks are the wire constants shifted once more, so they are 0x02, 0x04,
  0x10 and zero. Verdicts that set the kernel's sockmap bit (0x01) or the audit bit (0x08) are refused,
  though the documentation allows them (`Verdicts.DocumentedAccepted`), and no accepted verdict can put a
  socket on the kernel's fast path (`Verdicts.NeverSockmapEligible`).
- An identity that moves keeps its old address in identity_map when no one else claims it
  (`IdentityMapRefinement.MovedKeepsOldAddress`), and an address whose owner goes is lost to whoever takes it
  over in the same push (`IdentityMapRefinement.TakenOverAddressLost`); `IdentityMapRefinement.OwnedAddressAfter`
  covers every case, and the exact condition is `IdentityMapRefinement.ApplyRefinesExactlyWhen`. A plan in which
  an address is taken over cannot be repeated (`IdentityMapRefinement.TakeoverBreaksRetry`).
- After an Apply that failed half way the client still diffs against the old snapshot, so a rule or an
  identity the rejected push had written can stay in the kernel (`PolicyMapRefinement.AfterFailedApply` and
  `IdentityFailures.IdentitiesAfterFailed` say exactly when, `IdentityFailures.AddressesAfterFailed` also for
  moving and shared addresses, `PolicyMapRefinement.FailedApplyCanLeak` and
  `IdentityFailures.FailedApplyCanLeakIdentity` give inputs).
- Egress stamps frames with seven option words, and with eight where a slot is reserved, which ingress then
  passes by (`TunnelProofs.SentRecoveredExactlyWhen`, `TunnelProofs.SlotRecoveredExactlyWhen`, with inputs in
  `TunnelProofs.SevenWordsLost` and `TunnelProofs.EightWordsLost`).
- Stripping clears the whole option length, so only frames that had no option come back as they were
  (`GeneveProofs.RoundTripExactlyWhen`). The strip restores the original frame in the original length; eight
  leftover bytes stay behind it in the buffer. A payload of more than 256 bytes is passed on with the option
  still in it, though the comment in the source says it is dropped (`TunnelProofs.StripRestores`,
  `TunnelProofs.LongPayloadUnstripped`, with an input in `TunnelProofs.LongPayloadPassed`).
- The payload parser can take a bare inner packet for a slot with a packet behind it
  (`PacketProofs.InnerFoundExactlyWhen`, `PacketProofs.MisreadAsSlot`), and egress then writes the option over
  the first eight bytes of the inner header (`TunnelProofs.MisreadOverwritten`, with an input in
  `TunnelProofs.MisreadHappens`).
- Two MeridianPolicy objects that expand to one key share it: deleting one removes the other's rule
  (`MirrorProofs.OverlapLosesRules`; `MirrorProofs.ExactExactlyWhen` says exactly when nothing is lost).
- Certificates hold their dates in whole seconds, so an issuance bound of one eighth of the lifetime less the
  skew leaves a gap; one eighth of that less two seconds does not, and is exact (`Svid.ServedExactlyWhen`).
- A successful load uses only maps of its own schema version exactly when the collections of one version
  differ only in names no other version pins (`Schema.SoundExactlyWhenCoherent`). Both primary
  collections of this commit pin the same names, so their loads are sound
  (`Schema.OneSetPerVersionSound`).

## Model

| member | source | states |
|---|---|---|
| `ProtocolRuns.NoLostUpdate` | internal/control/store/memory.go:45-139 | no lost update, over every interleaving of writes, separate notifications, coalesced wake-ups, re-reads, pushes, answers, rejections, stopped kernel updates and reconnects: once nothing is pending and the last pushes are acknowledged, the applied policies and identities are the store's, and policy_map is right at exactly the keys that are not stale |
| `ProtocolRuns.QuietAcknowledged` | internal/control/ads/server.go:58-161 | when nothing is pending and the agent rejected nothing on the stream, every type's last push is acknowledged, so the previous theorem applies |
| `ProtocolRuns.NoLostIdentity` | internal/agent/xds/client.go:151-242 | with one stable unshared address per identity, identity_map of a quiet acknowledged system places an identity where the store does and nowhere else if and only if it is not astray |
| `ProtocolRuns.KernelRefinesApplied` | internal/agent/xds/client.go:164-176 | in every reachable state policy_map differs from the applied policies at exactly the stale keys, so it equals them if and only if nothing is stale; under stable unshared addresses identity_map equals the applied identities if and only if no one is astray |
| `ProtocolRuns.CleanRun` | internal/agent/xds/client.go:151-190 | runs in which every push is applied in full or rejected at decoding leave nothing stale and no one astray |
| `ProtocolRuns.CleanKernel` | internal/agent/xds/client.go:164-176 | over every such run both kernel maps are exactly the applied snapshot in every state, identity_map under stable unshared addresses |
| `ProtocolRuns.CleanNoLostUpdate` | internal/control/store/memory.go:45-139 | and once such a run is quiet and acknowledged, policy_map is exactly the store's |
| `ProtocolProgress.Descends` | internal/control/ads/server.go:58-161 | every step the system takes on its own, without a new write or stream, lowers a bound on the steps left |
| `ProtocolProgress.SettlesInTime` | internal/control/ads/server.go:58-161 | left alone from any point of any run, the system takes at most that many steps |
| `ProtocolProgress.StuckIsQuiet` | internal/control/ads/server.go:58-161 | in every reachable state, a system that can take no step of its own is quiet |
| `ProtocolProgress.CanSettle` | internal/control/ads/server.go:58-161 | from every state of every run, steps of its own lead to a quiet state |
| `ProtocolProgress.SettlesOnStore` | internal/control/store/memory.go:45-139 | a run left alone until no step is possible, whose stream saw no rejection, ends with exactly the store's content applied |
| `ProtocolConvergence.Converges` | internal/agent/xds/client.go:100-190 | from every state of every run whose store holds rules with direction 0 or 1 and action 0 to 2 and identities with dotted IPv4 addresses, the system's own steps, with at most one new stream and that only after a rejection, lead to a quiet state with both types acknowledged and exactly the store's content applied |
| `ProtocolConvergence.EveryScheduleConverges` | internal/agent/xds/client.go:100-190 | in every run, after a new stream over such a store, whatever steps of its own the system takes with a kernel that refuses nothing, it has converged once none is possible |
| `ProtocolConvergence.GoodPushAccepted` | internal/agent/xds/client.go:164-183 | a push whose rules are in range, or whose identities have addresses, is answered without error and its channel is then the body pushed |
| `ProtocolConvergence.StepClear` | internal/agent/xds/client.go:151-190 | every step of the system's own with a willing kernel keeps a stream free of rejections and of anything that would be rejected |
| `PushAcceptance.PolicyPushAcceptedExactlyWhen` | internal/cc2/codec.go:103-130 | with a budget for every map operation, a decoded policy push is rejected if and only if some rule has a direction above 1 or an action above 2; otherwise it is acknowledged with its own version and the policies are exactly the pushed ones |
| `PushAcceptance.IdentityPushAcceptedExactlyWhen` | internal/agent/datapath/translate.go:51-75 | likewise an identity push is rejected if and only if it changes an identity that has no dotted IPv4 address; otherwise the identities are exactly the pushed ones |
| `PushAcceptance.RunCompletesExactlyWhen` | internal/agent/datapath/writer_linux.go:42-106 | a writer whose kernel refuses nothing completes a plan, and executes all of it, if and only if every identity put has an address |
| `PushAcceptance.IdentityPutExactlyWhen` | internal/agent/xds/diff.go:10-48 | a plan puts an identity if and only if the new snapshot has it and the old one does not |
| `ControlPath.Mutates` | internal/control/store/memory.go:45-92 | a store operation of the class is, on the system's state, a write followed by its notification: content, and the watched slot full |
| `ControlPath.Wakes` | internal/control/ads/server.go:92-139 | taking the notification and pushing all is a run of the system from the wake-up through one reading and one transmission per subscribed type, with exactly these responses sent |
| `ControlPath.Receives` | internal/control/ads/server.go:85-126 | handling a request is a run of the system that takes it and, on a subscription, reads and transmits that type |
| `ControlPath.Answers` | internal/agent/xds/client.go:151-190 | handling a push is the system's response step, with this reply |
| `ControlPath.Reopens` | internal/control/ads/server.go:58-62 | a new stream with a watch of its own is the system's reconnect |
| `ControlPath.PushLoop` | internal/control/ads/server.go:129-139 | the push loop over any order of types, as steps of the system: what it skips, reads and transmits, and the stream state it leaves |
| `ProtocolRuns.AckSoundness` | internal/control/ads/versioning.go:68-105 | over every run, per type: version accepted by the server <= version applied by the agent <= version sent; the agent reports the version it applied; and what it holds is the body pushed under that version, whatever it rejected since |
| `ProtocolRuns.HeldWasStored` | internal/control/ads/server.go:142-196 | in every reachable state what the agent holds of a type is what it started with or exactly what the store held at some earlier moment |
| `ProtocolRuns.VersionsMonotone` | internal/control/ads/versioning.go:84-105 | on one stream neither the accepted nor the applied version ever goes down, pipelined pushes, NACKs and stale nonces included |
| `ProtocolRuns.ReachableInv` | internal/control/ads/server.go:58-161 | the system invariant holds in every state of every run |
| `Protocol.StepInv` | internal/control/ads/server.go:58-161 | every enabled step of store, server, channels and agent keeps the system invariant |
| `Protocol.HandleEffect` | internal/agent/xds/client.go:151-190 | handling one response either commits exactly the pushed channel, with the version and the whole plan executed, or changes nothing but kernel maps; the other channel is never touched |
| `Handshake.NoCrossTalk` | internal/control/ads/versioning.go:84-105 | a nonce issued for one type is stale for every other type and settles nothing there |
| `Handshake.ReceiveMonotone` | internal/control/ads/versioning.go:84-105 | no request the agent sent, however late, lowers any type's accepted version |
| `Handshake.ReceiveInv` | internal/control/ads/versioning.go:84-105 | classifying any request keeps the handshake invariant (nonces issued once, versions ordered, channels consistent with the log) |
| `Handshake.SendInv` | internal/control/ads/versioning.go:68-81 | preparing and sending a push keeps the handshake invariant |
| `Handshake.AnswerInv` | internal/agent/xds/client.go:151-190 | the agent's answer, accepting or rejecting, keeps the handshake invariant |
| `Handshake.QuietSettled` | internal/control/ads/versioning.go:84-105 | with both channels empty no push is outstanding, the agent has seen every version sent, and all are acknowledged unless one was rejected |
| `Store.Memory.PutIdentity` | internal/control/store/memory.go:45-53 | the identity is stored and nothing else changes; every registered channel then holds an event, a full one the event it had, and the channels are the same |
| `Store.Memory.DeleteIdentity` | internal/control/store/memory.go:55-62 | as above, for a removal, also of an absent identity |
| `Store.Memory.PutPolicy` | internal/control/store/memory.go:75-83 | as above, for a rule |
| `Store.Memory.DeletePolicy` | internal/control/store/memory.go:85-92 | as above, for a rule's removal |
| `Store.Memory.ListPolicies` | internal/control/store/memory.go:94-102 | lists exactly the stored rules, each key once |
| `Store.Memory.ListIdentities` | internal/control/store/memory.go:64-73 | lists exactly the stored identities, each once |
| `Store.Memory.Watch` | internal/control/store/memory.go:108-128 | registers an empty one-slot channel and disturbs no other |
| `Store.Memory.Unwatch` | internal/control/store/memory.go:108-128 | when the subscriber is done its channel is removed, and no other |
| `Store.Memory.Notify` | internal/control/store/memory.go:130-139 | every registered channel then holds an event, a full one the event it had; no channel comes or goes |
| `Store.Memory.Take` | internal/control/store/memory.go:108-128 | the subscriber's receive empties exactly its own slot |
| `Ads.StreamState.GetLocked` | internal/control/ads/versioning.go:56-64 | an unseen type gets its zero state; nothing else changes |
| `Ads.StreamState.PreparePush` | internal/control/ads/versioning.go:68-81 | a fresh nonce and the type's next version, marked outstanding, all other types unchanged |
| `Ads.StreamState.Classify` | internal/control/ads/versioning.go:84-105 | initial, stale, NACK or ACK by nonce and error, and the one type's state moved accordingly |
| `Ads.StreamState.AcceptedVersion` | internal/control/ads/versioning.go:108-113 | the version last acknowledged for a type, zero if none |
| `Ads.Server.ResourcesFor` | internal/control/ads/server.go:163-196 | carries exactly the store's rules or identities for the type, nothing for other types |
| `Ads.Server.Push` | internal/control/ads/server.go:142-161 | one response whose body carries the current store and whose version and nonce are freshly prepared |
| `Ads.Server.PushAll` | internal/control/ads/server.go:129-140 | one push per subscribed type, in the fixed make-before-break order, each carrying the store and freshly versioned; the system model lets writes fall between the pushes |
| `Ads.Server.OnRequest` | internal/control/ads/server.go:110-127 | only an initial request subscribes and is answered with a push; ACK, NACK and stale requests send nothing |
| `XdsClient.Client.CandidateFor` | internal/agent/xds/client.go:194-226 | decodes to the pushed channel replaced and the other kept, or fails on anything undecodable or of unknown type; which pushes are accepted is stated by the module PushAcceptance |
| `XdsClient.Client.Commit` | internal/agent/xds/client.go:237-242 | the applied snapshot and the type's accepted version are replaced together |
| `XdsClient.Client.HandlePush` | internal/agent/xds/client.go:151-190 | the whole handling: decode, diff, apply, commit and ACK, or NACK with the accepted version and an unchanged snapshot |
| `Diff.ComputePlan` | internal/agent/xds/diff.go:10-48 | the plan lists exactly the changed and new entries as upserts and the vanished ones as deletes, in snapshot order |
| `Diff.DiffIdentities` | internal/agent/xds/diff.go:10-48 | identity half of the plan |
| `Diff.DiffPolicies` | internal/agent/xds/diff.go:10-48 | policy half of the plan |
| `Diff.ChangedPoliciesMembers` | internal/agent/xds/diff.go:10-48 | a rule is upserted if and only if the old snapshot has no rule or another verdict for its key |
| `Diff.GonePoliciesMembers` | internal/agent/xds/diff.go:10-48 | a key is deleted if and only if only the old snapshot has it |
| `Datapath.Writer.Apply` | internal/agent/datapath/writer_linux.go:42-56 | identity upserts, policy upserts, policy deletes, identity deletes, in this order, stopping at the first operation that fails, with exactly the operations before it executed |
| `Datapath.Writer.ApplyIdentityUpserts` | internal/agent/datapath/writer_linux.go:58-70 | first phase, with the remembered key per identity |
| `Datapath.Writer.ApplyPolicyUpserts` | internal/agent/datapath/writer_linux.go:72-81 | second phase |
| `Datapath.Writer.ApplyPolicyDeletes` | internal/agent/datapath/writer_linux.go:98-106 | third phase |
| `Datapath.Writer.ApplyIdentityDeletes` | internal/agent/datapath/writer_linux.go:83-96 | last phase: clears the remembered address of each identity |
| `PolicyMapRefinement.RunIsPrefix` | internal/agent/datapath/writer_linux.go:42-106 | a run stopped anywhere has executed exactly a prefix of the plan's operations |
| `PolicyMapRefinement.OldOrNew` | internal/agent/datapath/writer_linux.go:42-106 | after any prefix of a plan every policy key reads as its old or its new verdict |
| `PolicyMapRefinement.ApplyRefines` | internal/agent/datapath/writer_linux.go:42-106 | a complete run moves policy_map from exactly the applied rules to exactly the desired ones |
| `PolicyMapRefinement.RetryPolicies` | internal/agent/datapath/writer_linux.go:42-106 | repeating a plan from any prefix of itself ends in the same policy_map as one clean run |
| `PolicyMapRefinement.AfterFailedApply` | internal/agent/xds/client.go:164-174 | after a push stopped half way and a later, different push: policy_map is right if and only if every key the stopped run got to is one whose rules in the old and the later snapshot differ |
| `PolicyMapRefinement.FailedApplyCanLeak` | internal/agent/xds/client.go:164-174 | an input where that condition fails and a rejected rule stays in the kernel |
| `IdentityMapRefinement.ApplyRefinesExactlyWhen` | internal/agent/datapath/writer_linux.go:58-96 | one complete push, of lists that may share addresses: the remembered keys are always right, and identity_map is right if and only if every address is settled (vacated or free when the new list leaves it free; otherwise vacated by no one and last claimed by a rewritten entry, or by its old owner with nothing rewritten there) |
| `IdentityMapRefinement.ApplyRefinesIff` | internal/agent/datapath/writer_linux.go:58-96 | without shared addresses the condition is that each old identity is named again exactly when its old address is |
| `IdentityMapRefinement.OwnedAddressAfter` | internal/agent/datapath/writer_linux.go:58-96 | without shared addresses, what a push makes of an address that was owned: cleared when its owner goes, else its new owner's, else still its old one's |
| `IdentityMapRefinement.MovedKeepsOldAddress` | internal/agent/datapath/writer_linux.go:58-70 | an identity that stays but gives up its address keeps it in the map when no one else claims it, and the map is wrong |
| `IdentityMapRefinement.TakenOverAddressLost` | internal/agent/datapath/writer_linux.go:83-96 | an address whose owner goes and which someone takes over in the same push maps to no one, and the map is wrong |
| `IdentityMapRefinement.StableCarriesOver` | internal/agent/datapath/writer_linux.go:58-96 | one stable unshared address per identity always meets that condition |
| `IdentityMapRefinement.RetryIdentities` | internal/agent/datapath/writer_linux.go:58-96 | repeating a plan from any prefix of itself ends in the same identity_map as one clean run when no deleted identity's address is taken over |
| `IdentityMapRefinement.TakeoverBreaksRetry` | internal/agent/datapath/writer_linux.go:58-96 | the condition is needed: with a takeover, repeating even a finished run changes identity_map |
| `IdentityFailures.IdentitiesAfterFailed` | internal/agent/xds/client.go:164-174 | under stable unshared addresses, after a push stopped half way and a later push: identity_map is right if and only if every identity the stopped run brought in or took out is one whose entries in the old and the later snapshot differ |
| `IdentityFailures.AddressesAfterFailed` | internal/agent/xds/client.go:164-174 | the same for moving and shared addresses: identity_map is right if and only if at every address the three lists and the number of operations executed give the later snapshot's owner |
| `IdentityFailures.StoppedAt` | internal/agent/datapath/writer_linux.go:42-106 | for any lists, the owner of every address and the remembered key of every identity after a run stopped anywhere |
| `IdentityFailures.FailedApplyCanLeakIdentity` | internal/agent/xds/client.go:164-174 | an input where an identity of a rejected push keeps its address in the kernel |
| `IdentityMapRefinement.StablePlanRetries` | internal/agent/datapath/writer_linux.go:58-96 | with stable unshared addresses every plan the diff makes meets the condition |
| `IdentityMapRefinement.PrefixShape` | internal/agent/datapath/writer_linux.go:42-106 | the identity side of any prefix of a plan: some upserts, and deletes only after all of them |
| `TranslateProofs.ParsedExactlyWhen` | internal/agent/datapath/translate.go:62-78 | an address text parses to four octets if and only if it is their canonical dotted form |
| `TranslateProofs.SharedKeyExactlyWhen` | internal/agent/datapath/translate.go:51-78 | two identities, at least one with a valid address, share an identity_map key if and only if they state the same address |
| `Compiler.Compile` | internal/control/compiler.go:12-144 | on success the input is acceptable and the result is exactly its compiled form, strictly increasing in the five-field key order; on failure the reported defect is really there |
| `CompiledFields.CompiledExactlyWhen` | internal/control/compiler.go:27-95 | a rule is in the output if and only if some rule of the document has a source name borne by an identity with the key's source ID and a destination name borne by one with its destination ID, lists its port, protocol and direction, and gives that verdict |
| `CompiledFields.CompiledOrder` | internal/control/compiler.go:97-133 | the output is strictly increasing by source, destination, port, protocol and direction, written out |
| `CompiledFields.AcceptedExactlyWhen` | internal/control/compiler.go:12-95 | the compiler accepts exactly: identities with a name, a nonzero ID and one ID per name; rules with no empty list, no blank or unborne name, directions 0 and 1 and an admissible verdict; and no two rules that overlap in all five lists and disagree |
| `CompilerProofs.DefectRefutes` | internal/control/compiler.go:12-95 | every reported defect makes the input unacceptable, so with the contract of Compile it succeeds if and only if names resolve, selectors are non-empty and valid, identities are consistent and no key gets two verdicts |
| `CompilerProofs.MeaningPreserved` | internal/control/conformance_test.go:166-210 | on every flow and in both postures, the evaluator built from the compiled rules answers as the oracle that searches the document itself, policy by policy, with its own name lookup and field-by-field match |
| `CompilerProofs.CompiledRulesValid` | internal/reference/evaluator.go:54-82 | compiled rules are valid and have distinct keys, so the evaluator always builds from them |
| `CompilerProofs.FirstMatchAssigns` | internal/control/conformance_test.go:166-210 | the oracle's first match finds the one verdict the document assigns, never an unresolved name, and nothing exactly when none is assigned |
| `CompilerProofs.BearerIsTable` | internal/control/conformance_test.go:175-178 | the oracle's lookup of a name and the compiler's index agree on every identity list |
| `CompilerProofs.InPoliciesFlat` | internal/control/conformance_test.go:180-208 | searching policy by policy is searching all rules in order |
| `CompilerProofs.Canonical` | internal/control/compiler.go:97-144 | two strictly increasing outputs with the same rules are the same sequence |
| `CompilerProofs.RewritingChangesNothing` | internal/control/compiler.go:27-144 | permuting or duplicating identities, policies, rules or selector entries of an accepted input changes neither acceptance nor the output |
| `Compiler.Fill` | internal/control/compiler.go:48-95 | the five nested loops add the whole product of one selector, or stop at a key of it that conflicts or has an invalid direction |
| `Compiler.CompileRule` | internal/control/compiler.go:27-95 | one selector on top of the rules so far: its product added, or its defect |
| `Compiler.CompilePolicy` | internal/control/compiler.go:27-95 | one policy on top of the rules so far |
| `Compiler.IndexIdentities` | internal/control/compiler.go:12-26 | the name table of consistent identities, or the defect that makes them inconsistent |
| `Compiler.ResolveIdentityNames` | internal/control/compiler.go:146-173 | the distinct identities a list of names means, or the defect |
| `Compiler.SortedKeys` | internal/control/compiler.go:97-133 | the keys of the rule map, each once, strictly increasing |
| `Evaluator.NewEvaluator` | internal/reference/evaluator.go:54-82 | builds if and only if the mode and every rule are valid and no key repeats; then it holds exactly the rules |
| `Verdicts.AcceptedVerdicts` | internal/control/compiler.go:188-227 | exactly which of the 8-bit verdicts pass the validator |
| `Verdicts.DocumentedAccepted` | pkg/wire/policy_snapshot.go:75-80 | a documented verdict passes if and only if it sets neither the sockmap nor the audit bit and asks for L7 only on a plain allow |
| `Verdicts.NeverSockmapEligible` | bpf/include/meridian_helpers.h:75-80 | no accepted verdict is eligible for the kernel's socket fast path |
| `Geneve.CountOptions` | bpf/tc_egress.c:114-148 | the option walk, as a loop, computes the option count of the region for any loop bound |
| `Geneve.ParseGeneveOptionCount` | bpf/tc_egress.c:114-148 | the walk at its own bound of four options |
| `Geneve.CountedExactlyWhenTiled` | bpf/tc_egress.c:114-148 | the bounded walk accepts exactly the regions that tile into at most that many options, and counts them |
| `Geneve.SearchIdentity` | bpf/tc_ingress.c:80-124 | the identity search, as a loop, finds the first Meridian option the walk reaches, for any loop bound |
| `Geneve.ParseGeneveIdentity` | bpf/tc_ingress.c:80-124 | the search at its own bound of four options |
| `Geneve.Skb.InsertInnerTlvRoom` | bpf/tc_egress.c:150-206 | refuses and leaves the packet alone, or opens eight bytes at the given place by the overlapping copy; when the data cannot be pulled in after the head grew, fails with the eight bytes in front |
| `Geneve.Skb.ChangeHead` | bpf/tc_egress.c:150-206 | eight zero bytes in front, every other byte eight places later |
| `Geneve.Skb.CopyBack` | bpf/tc_egress.c:150-206 | the byte-by-byte copy towards the head moves exactly the first bytes, despite the overlap |
| `Geneve.Skb.BumpLengths` | bpf/tc_egress.c:208-240 | outer IP and UDP lengths recomputed from the frame, checksum bytes only when a checksum is in use |
| `Geneve.Skb.StampIdentityTlv` | bpf/tc_egress.c:242-266 | the identity option written and the option length raised by two words |
| `Geneve.Skb.StripMeridianTlv` | bpf/tc_ingress.c:372-430 | refuses exactly when the payload does not fit its bounds, leaving the packet alone; otherwise the eight bytes before the payload are gone and the three length fields adjusted |
| `Geneve.Skb.ShiftDown` | bpf/tc_ingress.c:395-406 | the overlapping in-place shift towards the head |
| `GeneveProofs.IdentityRecovery` | bpf/tc_egress.c:343-449 | what ingress parses from any frame egress stamps by opening room: same outer headers, two more option words, the inner header eight bytes later, and the stamped identity unless an earlier option names one |
| `GeneveProofs.SlotRecovery` | bpf/tc_ingress.c:80-179 | what ingress parses from a frame stamped in its reserved slot: same outer headers, two more option words, the stamped identity unless an earlier option names one, and the inner header unless the byte eight further on starts another |
| `GeneveProofs.RoundTripExactlyWhen` | bpf/tc_ingress.c:372-430 | stamping then stripping gives back every original byte if and only if there were no options, the outer lengths were right, and the outer UDP checksum was zero or untouched |
| `GeneveProofs.FindPastTiles` | bpf/tc_ingress.c:80-124 | the search finds an option placed after any well-formed ones unless one of them already answers |
| `GeneveProofs.PayloadShifted` | bpf/include/meridian_parse.h:66-82 | the payload parser finds the same inner header after the payload moves by eight bytes |
| `GeneveProofs.OuterSurvives` | bpf/include/meridian_parse.h:30-64 | the outer Ethernet, IPv4 and UDP headers of a stamped frame parse as before, and the Geneve header parses exactly when at most six option words were there |
| `GeneveProofs.StampedAt` | bpf/tc_egress.c:150-266 | every byte of a stamped frame, in terms of the original frame |
| `GeneveProofs.StrippedAt` | bpf/tc_ingress.c:372-430 | every byte a strip leaves, in terms of the frame before |
| `Tc.Programs.TcIngress` | bpf/tc_ingress.c:445-556 | the whole ingress program on counters, events, deny map, seen flows and packet is the ingress step function; the module TcFields says what that does |
| `Tc.ParseFrame` | bpf/tc_ingress.c:445-514 | the parsing half of the program, with the option search loop, is the parse function; the modules PacketBytes and OptionBytes say what it reads |
| `Tc.Programs.EnforceFlow` | bpf/tc_ingress.c:274-350 | decision, counters, events and deny record of one flow |
| `Tc.Programs.EmitFlowEvent` | bpf/tc_ingress.c:189-221 | an event is submitted, or counted as dropped when the ring is full, never neither |
| `Tc.Programs.DeniedFlowUpsert` | bpf/tc_ingress.c:223-237 | the deny record of a flow |
| `Tc.Programs.UdpFirstSight` | bpf/tc_ingress.c:262-272 | true exactly the first time a flow is seen |
| `Tc.Programs.TcEgress` | bpf/tc_egress.c:268-463 | the whole egress program on the kernel state and the packet is the egress step function; the module TcFields says what that does |
| `Tc.Programs.EgressTunnelled` | bpf/tc_egress.c:343-449 | the Geneve path of egress |
| `Tc.Programs.EgressUntunnelled` | bpf/tc_egress.c:268-342 | the plain path of egress |
| `Tc.Programs.Stamp` | bpf/tc_egress.c:424-449 | opens room unless a slot is reserved, fixes lengths, stamps; any failure is the fail-closed drop |
| `TcFields.PlainIngress` | bpf/tc_ingress.c:274-350 | outside a tunnel, case by case on the map entries: posture bit 0 for unknown identities, reasons 1 to 4, the deny record renewed and counted up modulo 2^32, the allow reported on a TCP SYN or a flow's first UDP packet only, redirect marked, and the action 0 or 2 |
| `TcFields.TunnelIngress` | bpf/tc_ingress.c:445-556 | the same for the inner flow of a Geneve frame: the option's identity before the map's, a frame without a source counted, later TCP segments of a known source let through, an explicit deny answered with 4, and the option removed from exactly the frames that pass |
| `TcFields.EnforcedAsStated` | bpf/tc_ingress.c:274-350 | the decision and its bookkeeping are that case table |
| `TcFields.PlainEgress` | bpf/tc_egress.c:294-339 | outside a tunnel the action is 4 exactly when identity_map has a nonzero entry for both addresses and policy_map holds action 1 for them, the port, the protocol and ingress; anything else passes, and nothing is recorded |
| `TcFields.PlainEgressRefuses` | bpf/tc_egress.c:331-337 | the deny record, counter and event of a packet stopped there |
| `TcFields.TunnelEgress` | bpf/tc_egress.c:396-463 | the same for the inner flow of a Geneve frame; otherwise encapsulation fails exactly when the source is unknown, four options are there, or room is needed and cannot be had; a failure is counted, passes in the open posture, and in the closed one is dropped with action 2 and reason 5 |
| `TcFields.BrokenTunnel` | bpf/tc_egress.c:341-360 | a datagram to the Geneve port that is no Geneve frame: egress fails, dropping exactly in the closed posture; ingress passes it |
| `TcFields.BrokenInner` | bpf/tc_egress.c:341-395 | a Geneve frame whose options do not tile into at most four, or whose inner ports are missing, fails at egress; one without an inner IPv4 header passes; ingress passes what it cannot read |
| `TcFields.OtherFrames` | bpf/tc_egress.c:285-293 | both programs pass a frame without an IPv4 header, and egress touches nothing |
| `TcProofs.Conservation` | bpf/tc_ingress.c:181-221 | over every interleaving of ingress and egress packets, events submitted plus events dropped equal flows allowed plus denied plus redirected, no verdict is reported more often than counted, and packet and byte totals are those of the ingress packets |
| `TcProofs.NoDropsExact` | bpf/tc_ingress.c:189-221 | over every interleaving, while the ring was never full, each of the three counters is exactly the number of events with its verdict |
| `TcProofs.EventsExplainActions` | bpf/tc_ingress.c:274-350 | an ingress packet is dropped if and only if a deny is counted, and its event names its own flow, size and identities, which put to the policy again give the event's verdict and the action taken |
| `TcProofs.IngressReports` | bpf/tc_ingress.c:445-556 | one ingress packet adds itself to the totals and reports nothing or exactly its own event, counted under its own verdict |
| `TcProofs.EgressReports` | bpf/tc_egress.c:268-463 | one egress packet leaves the totals alone and reports nothing, or one deny for a refusal |
| `TunnelProofs.EgressStampsRoom` | bpf/tc_egress.c:343-449 | the egress program sends exactly the stamped frame, with the identity its map gives the inner source |
| `TunnelProofs.IdentityCrossesNodes` | bpf/tc_ingress.c:80-179 | with at most six option words before, a frame one node stamped by opening room is enforced by any other node as the same inner flow with the sender's identity, or an earlier option's if there is one; with seven it is passed by |
| `TunnelProofs.StripRestores` | bpf/tc_ingress.c:515-556 | a frame egress stamped by opening room, which the receiver lets through and asks to strip, is handed on byte for byte as it was before the sender, if and only if its payload is at most 256 bytes, it had no options and consistent lengths |
| `TunnelProofs.SlotStripLeaves` | bpf/tc_ingress.c:515-556 | the same for a frame stamped in its slot: with at most 256 bytes behind the slot the strip leaves the frame without it, both outer lengths eight less and no options announced; with more, the frame as it came |
| `TunnelProofs.SlotStripped` | bpf/tc_ingress.c:372-430 | every byte of a frame stamped in its slot and stripped |
| `TunnelProofs.LongPayloadUnstripped` | bpf/tc_ingress.c:372-430 | with a payload of more than 256 bytes every such frame is passed on unchanged, option and all |
| `TunnelProofs.LongPayloadPassed` | bpf/tc_ingress.c:515-556 | such a frame, allowed by the receiver |
| `TunnelProofs.AtMostSevenWords` | bpf/tc_egress.c:166-187 | the room limits admit at most seven option words, and seven only behind an untagged Ethernet and a plain IPv4 header |
| `TunnelProofs.SentRecoveredExactlyWhen` | bpf/tc_ingress.c:80-179 | the receiver recovers the identity from a frame egress sends after opening room if and only if at most six option words were there and no earlier option names another identity; with seven it passes the frame by |
| `TunnelProofs.SevenWordsLost` | bpf/tc_egress.c:343-449 | a frame with seven option words that egress stamps and ingress passes by |
| `TunnelProofs.EgressStampsSlot` | bpf/tc_egress.c:424-449 | a frame with a reserved slot is stamped in it, whatever the room limits |
| `TunnelProofs.SlotRecoveredExactlyWhen` | bpf/tc_ingress.c:80-179 | the same if-and-only-if for frames stamped in a slot, which ingress passes by with seven or eight option words |
| `TunnelProofs.EightWordsLost` | bpf/tc_egress.c:424-449 | a frame with a slot and eight option words that egress stamps and ingress passes by |
| `TunnelProofs.MisreadOverwritten` | bpf/tc_egress.c:424-449 | a bare inner packet taken for a slot loses the first eight bytes of its header to the option |
| `TunnelProofs.MisreadHappens` | bpf/tc_egress.c:424-449 | such a packet, with 0x45 in its TTL byte |
| `PacketProofs.InnerFoundExactlyWhen` | bpf/include/meridian_parse.h:66-82 | the parser finds the true inner header always behind a slot; in a bare packet unless its TTL byte, with 28 bytes present, starts a header; in a frame unless the first destination or third source address byte does |
| `PacketProofs.MisreadAsSlot` | bpf/include/meridian_parse.h:66-82 | otherwise a bare packet is read as a slot with a packet behind it |
| `PacketBytes.PortsExactlyWhen` | bpf/tc_ingress.c:57-79 | TCP and UDP ports are the two 16-bit big-endian words at the IPv4 header plus four times its length nibble, and missing without four bytes there; every other protocol has ports zero |
| `PacketBytes.FramedExactlyWhen` | bpf/include/meridian_parse.h:17-64 | an IPv4 header is found exactly behind EtherType 08 00, or 81 00 and then 08 00, with a first byte from 45 to 4f and twenty bytes present |
| `PacketBytes.InnerExactlyWhen` | bpf/include/meridian_parse.h:66-82 | the payload parser takes exactly the first of: a header behind eight bytes, a bare header, a header in an Ethernet frame |
| `PacketBytes.GeneveExactlyWhen` | bpf/tc_ingress.c:132-170 | a Geneve frame is taken exactly when it is UDP to port 6081, its header is whole, its first byte is at most 8, and the options lie inside the frame |
| `PacketBytes.OpensExactlyWhen` | bpf/tc_ingress.c:239-255 | a segment opens a connection exactly when its flag byte has bit 0x02 set and bit 0x10 clear |
| `OptionBytes.FoundExactlyWhen` | bpf/tc_ingress.c:80-130 | the option search returns the value of the first option with class 0x4d52, type 1 and one word of data, if that is among the first four and whole, and nothing otherwise |
| `EndToEnd.CompiledPolicyEnforced` | bpf/tc_ingress.c:274-350 | for every accepted document and identities with one unshared address each, once rules and identities are loaded into empty maps, every IPv4 packet outside a tunnel passes exactly when the document allows or redirects its flow and is dropped otherwise, in both postures; the flow is read from the bytes: the identities whose entries state the dotted addresses, the port behind the IPv4 header, the protocol byte |
| `EndToEnd.CompiledPolicyEnforcedInTunnel` | bpf/tc_ingress.c:445-556 | the same for the inner flow of every readable Geneve frame, with the source identity the option carries where there is one; later segments of a TCP connection pass |
| `EndToEnd.PolicyAcrossNodes` | bpf/tc_egress.c:343-449 | two nodes that loaded the same document: a frame one stamps by opening room, with no identity option before and at most six option words, passes the other exactly when the document allows or redirects the inner flow as the identity list names it; later TCP segments pass |
| `EndToEnd.DocumentDecides` | bpf/tc_ingress.c:274-350 | on a node that loaded the document, enforcement passes a flow exactly when the document does |
| `EndToEnd.HolderRead` | internal/agent/datapath/translate.go:62-75 | identity_map answers for four address bytes of a packet as the identity list does for their dotted text |
| `EndToEnd.LookupIsEvaluate` | internal/agent/datapath/translate.go:33-49 | the kernel's policy lookup under translated keys is the evaluator's lookup |
| `EndToEnd.LoadedMaps` | internal/agent/datapath/writer_linux.go:42-106 | loading a snapshot into empty maps leaves exactly its tables |
| `EndToEnd.PacketSeesOldOrNew` | internal/agent/datapath/writer_linux.go:42-106 | while a policy push is applied, or after it stopped half way, every packet is treated as before the push or as after it |
| `EndToEnd.PolicyPushKeepsIdentities` | internal/agent/xds/diff.go:10-48 | a push on the policy channel never touches identity_map |
| `Telemetry.Aggregator.Handle` | internal/agent/telemetry/aggregate.go:66-105 | after every event sequence the list is exactly the recency order of the history cut to capacity, the map has exactly its pairs, and every counter is the sum over the pair's events since it was last inserted |
| `Telemetry.Aggregator.constructor` | internal/agent/telemetry/aggregate.go:54-63 | an empty aggregator; a capacity that is not positive becomes 1024 |
| `Telemetry.Aggregator.EvictOldest` | internal/agent/telemetry/aggregate.go:140-148 | drops the last pair of the list from both structures and nothing else |
| `Telemetry.Aggregator.Admit` | internal/agent/telemetry/aggregate.go:78-96 | makes the pair the most recent one, evicting only when a new pair meets a full list |
| `Telemetry.Aggregator.Snapshot` | internal/agent/telemetry/aggregate.go:108-128 | each tracked pair once, strictly increasing by source and destination, with its counters |
| `Telemetry.Aggregator.Size` | internal/agent/telemetry/aggregate.go:131-138 | the number of tracked pairs, never above capacity |
| `Telemetry.RecencyIsOrder` | internal/agent/telemetry/aggregate.go:66-105 | the recency order holds exactly the pairs that occur, by decreasing last occurrence |
| `Telemetry.TrackStep` | internal/agent/telemetry/aggregate.go:66-96 | bounded tracking is the unbounded recency order cut to capacity, step by step |
| `Telemetry.HandleStep` | internal/agent/telemetry/aggregate.go:66-105 | what an update of map and list must do for both to hold the longer history |
| `Telemetry.ExpectedStep` | internal/agent/telemetry/aggregate.go:97-105 | how the counters since insertion move with one event |
| `Telemetry.TotalsAreCounts` | internal/agent/telemetry/aggregate.go:97-105 | a pair's allow count is the number of its events with verdict 0, its deny count that of verdict 1, its byte count the sum over its events, and its source and destination are theirs |
| `Telemetry.NeverEvicted` | internal/agent/telemetry/aggregate.go:66-105 | while no more distinct pairs were seen than fit, every counter is the sum over all of the pair's events |
| `Telemetry.LargerTracksMore` | internal/agent/telemetry/aggregate.go:66-96 | a larger capacity tracks a superset, in the same order |
| `Telemetry.Collect` | internal/agent/telemetry/aggregate.go:193-224 | each label pair once, with the sum of the aggregates that resolve to it |
| `Telemetry.ResolveLabel` | internal/agent/telemetry/aggregate.go:251-264 | the resolved name, or a fixed label for unresolved and blank ones; never blank |
| `Telemetry.ExportConserves` | internal/agent/telemetry/aggregate.go:205-249 | for any resolver and any order of emission, exported totals equal the aggregates' totals |
| `Telemetry.SnapshotConserves` | internal/agent/telemetry/aggregate.go:108-128 | while nothing was evicted, a snapshot's totals are the totals of all events ever handled |
| `Telemetry.GroupingConserves` | internal/agent/telemetry/aggregate.go:205-224 | grouping by any key, in any order of the groups, loses and doubles nothing |
| `Mirror.CompilePolicyRules` | internal/control/k8s/policy_informer.go:84-138 | expands exactly when the object is valid, resolves and stays within 65536 rules; then the rules are the whole product with the object's verdict and nothing else |
| `MirrorProofs.ExpandedExactlyWhen` | internal/control/k8s/policy_informer.go:84-156 | the rules of an object, field by field: action 0 for "allow" and 1 for "deny", no flags, ingress, one for every source, selected destination, port and protocol (TCP 6, UDP 17, TCP by default) |
| `MirrorProofs.ExpandsExactlyWhen` | internal/control/k8s/policy_informer.go:84-156 | which objects have rules at all, condition by condition, and how many |
| `Mirror.ProtocolNumbers` | internal/control/k8s/policy_informer.go:140-156 | TCP when none is listed, else the listed protocols, or nothing on an unknown name |
| `Mirror.PolicyWatcher.OnUpsert` | internal/control/k8s/policy_informer.go:226-258 | puts the expansion, records the keys whose write was accepted, deletes recorded keys no longer produced; a failed compile changes nothing; each write and delete may be refused on its own |
| `Mirror.PolicyWatcher.OnDelete` | internal/control/k8s/policy_informer.go:264-289 | deletes the recorded keys, or a recompile's keys when there is no record |
| `Mirror.PolicyWatcher.SwapApplied` | internal/control/k8s/policy_informer.go:293-303 | installs or removes a record and returns the previous one |
| `MirrorProofs.NoLeak` | internal/control/k8s/policy_informer.go:226-303 | over every run on a store that refuses nothing, whatever objects compile to each time, every stored key is on some record |
| `MirrorProofs.ContainedExactlyWhen` | internal/control/k8s/policy_informer.go:226-303 | with a store that may refuse any operation: stored keys stay on record if and only if it accepted some write or delete of each key that the object alone had on record |
| `MirrorProofs.ExactExactlyWhen` | internal/control/k8s/policy_informer.go:226-303 | the store stays equal to the records if and only if the event removes no key another object has on record |
| `MirrorProofs.MirrorsLastGoodCompile` | internal/control/k8s/policy_informer.go:226-303 | over every run whose objects do not overlap, each record is the object's last good compile and the store maps every key to its owner's verdict there, and to nothing otherwise |
| `MirrorProofs.OverlapLosesRules` | internal/control/k8s/policy_informer.go:264-289 | with overlap, deleting one object removes a rule another still has on record |
| `Schema.PinDir.PreparePinDir` | internal/agent/bpfobj/schema.go:35-66 | fails on an empty path or a directory that cannot be made or read; otherwise true if and only if anything is pinned there |
| `Schema.PinDir.ReconcileSchema` | internal/agent/bpfobj/schema.go:80-103 | stamps a fresh set; on a re-open accepts only its own version, telling an unstamped set from a foreign one; a failed read or write of the sentinel is an error that stamps nothing |
| `Schema.PinDir.LoadObjects` | internal/agent/bpfobj/loader_linux.go:59-65 | opens pinned maps and creates missing ones, in any order, up to any point of interruption |
| `Schema.PinDir.LoadPrimary` | internal/agent/bpfobj/loader_linux.go:53-96 | scan, open, reconcile, in this order, interrupted anywhere or complete |
| `Schema.LoadEnds` | internal/agent/bpfobj/schema.go:35-103 | how a load ends on what it finds: success in an empty directory or on a sentinel with its own version, a partial pin set on an absent or empty sentinel, a mismatch on any other |
| `Schema.SuccessfulLoadsAreSound` | internal/agent/bpfobj/schema.go:35-103 | where collections of one version differ only in names no other version pins: over every sequence of loads by builds of any versions, each interrupted anywhere, and of wipes, a load that succeeds uses only maps a build of its own version created |
| `Schema.OneSetPerVersionSound` | internal/agent/bpfobj/loader_linux.go:53-96 | where each version pins one set of maps, as the two primary loaders do, every load that succeeds in any run is sound |
| `Schema.SoundExactlyWhenCoherent` | internal/agent/bpfobj/schema.go:35-103 | that holds in every run if and only if collections of one version differ only in names no other version pins |
| `Schema.IncoherentUnsound` | internal/agent/bpfobj/schema.go:80-103 | the three-load run that breaks it otherwise |
| `Schema.StepInv` | internal/agent/bpfobj/schema.go:35-103 | every step keeps the invariant that a stamp vouches for one whole collection of its version |
| `Schema.RestartAdopts` | internal/agent/bpfobj/schema.go:80-103 | a restart after a completed load always succeeds and changes nothing |
| `Breaker.CircuitBreaker.Allow` | internal/proxy/circuit_breaker.go:70-87 | admits when closed or when open for the reset time, and then becomes half-open |
| `Breaker.CircuitBreaker.RecordSuccess` | internal/proxy/circuit_breaker.go:91-96 | closes and forgets the errors |
| `Breaker.CircuitBreaker.RecordFailure` | internal/proxy/circuit_breaker.go:100-109 | counts, and opens when half-open or at the threshold |
| `Breaker.ClosedExactlyWhen` | internal/proxy/circuit_breaker.go:70-109 | after every history the breaker is closed if and only if the failures since the last success are short of the threshold |
| `Breaker.AdmittedExactlyWhen` | internal/proxy/circuit_breaker.go:70-109 | a call is admitted if and only if the breaker is closed, or the reset time has passed since the latest opening and no call was admitted since |
| `Breaker.OpensExactlyWhen` | internal/proxy/circuit_breaker.go:70-109 | on the calls alone: the latest opening moves to a failure exactly when a call was made at least the reset time after the previous opening, or the failure is the threshold-th since that opening or the last success; a success ends it |
| `Breaker.ProbedExactlyWhen` | internal/proxy/circuit_breaker.go:70-87 | a call has been let through since the latest opening exactly when one was made at least the reset time after it |
| `Breaker.NothingBeforeReset` | internal/proxy/circuit_breaker.go:70-87 | with a clock that does not run backwards, nothing is admitted from any opening until the reset time unless a success is recorded |
| `Breaker.OneProbe` | internal/proxy/circuit_breaker.go:70-109 | between a call admitted from Open and the next admitted call a result has been recorded |
| `Svid.SVIDManager.Start` | internal/agent/svid/manager.go:121-164 | first issuance or nothing; then each attempt waits for the schedule or a forced request, and replaces the entry on success or backs off and keeps it |
| `Svid.SVIDManager.GetSVID` | internal/agent/svid/manager.go:192-202 | serves the current entry if and only if there is one and it is not near expiry |
| `Svid.SVIDManager.Issue` | internal/control/ca/ca.go:335-355 | an entry dated back by the skew and valid for the lifetime from the moment of signing, both dates cut to whole seconds |
| `Svid.ServedExactlyWhen` | internal/agent/svid/manager.go:192-242 | over every run of scheduled and forced rotations that each succeed within a bound, the current entry is always served after the first issuance if and only if eight times the bound fits in lifetime minus skew minus two seconds |
| `Svid.TimelyRunServed` | internal/agent/svid/manager.go:121-164 | the sufficiency, for a given run |
| `Svid.SlowRunRefused` | internal/agent/svid/manager.go:218-242 | the run that is refused when the bound is larger: signed late in a second, delivered at the bound |
| `Svid.LeftAtRotation` | internal/agent/svid/manager.go:232-242 | at least a sixth of the lifetime is left when the successor is stored |

## Left out

- JSON, protobuf and gRPC encoding: encoding and decoding is an exact round trip or an abstract failure.
- Checksums and BPF helper internals: loads and stores are bounds-checked byte accesses, pulling data in succeeds except after the head has grown, IP checksum recomputation is ignored, and what the checksum helper leaves in the two bytes it is pointed at is a parameter.
- Eviction inside kernel LRU maps and per-CPU layout: plain maps, one counter per metric.
- bpf/sock_ops.c and bpf/sk_msg.c, and the secondary loaders for them: a guard before one insert and one lookup.
- The identity registry, reconnect backoff, the proxy feed and the SPIFFE resolver: small invariants, easy next to what is here.
- internal/agent/config/yaml.go: its commit plan repeats the diff with sorting.
- TLS, X.509, the certificate authority beyond its two dates, token bootstrap, the Workload API and the proxy byte copy.
- Command line, probes, admin and REST servers, the Prometheus registry, tracing, netlink, TPROXY, the etcd store and generated code.
- Context cancellation, logging and reconnect timing. More than one agent or stream at a time.
- 64-bit wrap-around of versions, nonces and counters, and the conversion of counters to floating point on export.
- Evaluation order of Go map iteration and sort.Slice: any iteration order is allowed, and sorting is by insertion.
- container/list: the recency list is a sequence.
- Svid: times are reals, so the truncation of the two fractions to whole nanoseconds is not captured; lifetimes and skew are whole seconds, as the authority's constants are. Only runs whose attempts succeed are promised to be served; failed attempts and their backoff are part of Start but of no theorem.
- Mirror: a write or delete the store reports as failed is taken not to have happened.
- Schema: wiping the pin directory is one step, and maps are all-or-nothing in being created and pinned.
- Breaker: the breaker's mutex makes calls atomic, so histories are sequences.
- Compiler.Fill: does not say that the key it stops at is the first bad one in loop order; the error is reported and nothing else depends on which it is.

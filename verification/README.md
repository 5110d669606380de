# A verified model of the osvbng data plane

This project models four parts of osvbng's VPP plugins in Dafny and proves what they keep.

**The HQoS scheduler** shares a port among S-VLANs and subscribers. `AggTree` and `Hqos` are the two-tier tree
of aggregates with its buffer charge and published weights, and every configuration step on it. `CreditShare`
shows that credit issued two tiers deep never exceeds the port's. `Rate` is the fixed-point rate of the shapers.
`AdmitRace`, `WeightRace` and `DequeueGate` cut buffer admission, the shared counters, the rate gates and the
packed round-and-deficit word into single atomic accesses and let any number of workers interleave them. `Drr`
is the owner-local deficit round robin, `Cobalt` the AQM with its fixed-point inverse square root and
the spacing of drops that rests on it. `FlowQueue`, `FlowLists`, `TinState` and `Tins` are one tin: ring queues,
three intrusive lists over 1024 flows, the host table, and the steps of both packet paths. `Scheduler` puts tins together with the scheduler's counters, the
enqueue path and the dispatch walk. `QosPlugin` runs the tree and the schedulers together: what a tier is
charged is what is queued beneath it.

**CGNAT**: `SessionList` and `CgnatStore` are the session pool, its two lookup tables, the per-mapping lists and
port blocks, `SessionRuns` what can be reached through them over whole runs. `Checksum`, `Translate` and
`IcmpError` are the packet rewrites with their incremental checksums and the reversal inside quoted headers, and
`ErrorPath` follows an ICMP error from the quoted packet through the tables back to its session. `DetMap` is the
algorithmic mapping of RFC 7422.

**The punt rings**: `PuntRing` is the shared-memory ring with its coalesced-interrupt handshake.

**The layer-2 gateway**: `TagRewrite` is the in-place VLAN rewrite, `Circuits` the paired entries and their
table. `Sums` holds the laws of finite sums the conservation proofs use.

Objects the source updates in place are classes here, and fixed buffers are arrays; pools and hash tables
are maps. The two link fields of a flow or a session are kept in an array or map of their own beside the
other fields. Steps other workers may see between are the steps of a state machine; everything the source
does under the worker barrier, or on a scheduler's owner thread, is a method.

## What is assumed

- Shared accesses are sequentially consistent, and the worker barrier excludes every worker step.
- Limits leave headroom: a buffer limit plus one packet stays below 2^32 - 1 (a derived limit that saturates
  at 2^32 - 1 does not), 64-bit statistics do not wrap, and the shared deficit with all its refunds stays
  below 2^31.
- Clocks of workers inside the gate differ by less than 2^20 rounds, and a child is not left untouched for
  the 49.7 days after which its 32-bit tag is ambiguous.
- The daemon's side of the rings follows the contract of the ring header.
- The checksum library is specified by residues modulo 65535: folding keeps the residue and yields 16 bits,
  and adding or subtracting a term moves it by that term, with either sign convention.
- The interface path of a scheduler is any sequence of hops, and the answers of the AQM, of the parents'
  gates and of the local share test are any sequence of outcomes.
- Port blocks have a first port no greater than their last, fib indices are looked up by their low 16 bits,
  and an inside key is looked up before it is installed.

## Where the code falls short of a simple reading

- A layer-2 circuit whose access and handoff keys are equal is not refused, and hides its own access entry
  (`Circuits.PairFitsIff`, `Circuits.EqualKeysHideAccess`).
- A frame whose payload begins with a tag is misread at the far end unless two tags are sent
  (`TagRewrite.FarEndParsesIff`, `TagRewrite.TaggedPayloadIsMisread`).
- A frame with a priority tag, whose identifier is 0, is switched by the untagged circuit and comes back without
  that tag (`TagRewrite.PeerRestores`, `TagRewrite.NullTagIff`, `TagRewrite.PriorityTagIsLost`).
- The CGNAT port allocator looks at release times only, so it can return a port in use, and does exactly when a
  live session holds the first port that is not resting (`CgnatStore.GrantsHeldIff`,
  `CgnatStore.GrantedAgainIff`). A session created on one with the same remote end takes over the outside entry,
  and takes it along when it ends: the earlier session, still alive, is unreachable from outside
  (`CgnatStore.CreateReaches`, `CgnatStore.DeleteReaches`, `CgnatStore.Store.ReusedPort`, and over whole runs
  `SessionRuns.ReachableIff`). A block that begins at port 0 can yield 0, which callers read as exhaustion
  (`CgnatStore.Store.PortAlloc`).
- The reverse deterministic map answers for ports above the last block with a host that does not own them
  (`DetMap.ReverseOwnsIff`, `DetMap.LeftoverPortIsMisnamed`), and the inside lookup never finds a prefix that
  ends the address space (`DetMap.CoversIff`, `DetMap.TopPrefixIsNeverFound`). An entry is usable exactly when
  the inside prefix has no more hosts than the outside prefix has ports (`DetMap.Pool.AddOutside`).
- A shaper's rate in fixed point is promised to be within 0.01% up to 100 Gbit/s; it is up to 52.4 Gbit/s, and
  within 0.02% up to 100 (`Rate.RateErrorIff`).
- The round test is exact only for leads in a window of 2^32 rounds (`Drr.RefillDueExactly` says which).
- Past the cached counts the inverse square root is one Newton step a movement: within one percent of the square
  below 2^24 drops (`Cobalt.RunStaysSharp`), and beyond, where its squares are coarse, only within a factor
  between 1/8 and 2.38 (`Cobalt.EstimateIsNear`).
- A queue that begins to stand with a zero drop count has its first drop scheduled one spacing away and then moved
  to the present if the old schedule had passed (`Cobalt.Aqm.ShouldDrop`).

## Model

| member | source | states |
|---|---|---|
| `AggTree.ChainIsOnChain` | plugins/osvbng_qos_sched/osvbng_qos_sched.c:211-222 | the bounded walk up the parents visits exactly the tiers a scheduler is charged to, each once |
| `AggTree.ChargeCovers` | plugins/osvbng_qos_sched/osvbng_qos_sched.h:794-806 | a tier's charge is never negative and covers every single share of it, so no release takes more than is there |
| `AggTree.ChargeBalances` | plugins/osvbng_qos_sched/osvbng_qos_sched.c:233-298 | crediting the tiers only the new chain has, and debiting those only the old chain has, keeps every tier's usage equal to the bytes beneath it, whatever the two chains share |
| `AggTree.JoinBalances` | plugins/osvbng_qos_sched/osvbng_qos_sched.h:965-984 | an activation, carried up on the 0 to 1 transition, keeps each tier's weight and child count equal to the sum and number of its active children |
| `AggTree.LeaveBalances` | plugins/osvbng_qos_sched/osvbng_qos_sched.h:986-1006 | the same for a deactivation and the 1 to 0 transition |
| `AggTree.AddSched` | plugins/osvbng_qos_sched/osvbng_qos_sched.c:572-574 | a new, idle scheduler leaves every total as it was |
| `AggTree.RemoveSched` | plugins/osvbng_qos_sched/osvbng_qos_sched.c:616-640 | a drained, idle scheduler can be dropped without disturbing any total |
| `AggTree.AddAgg` | plugins/osvbng_qos_sched/osvbng_qos_sched.c:691-765 | a new, empty tier leaves every total as it was |
| `AggTree.RemoveAgg` | plugins/osvbng_qos_sched/osvbng_qos_sched.c:767-812 | a tier nobody is attached to has zero usage, weight and count, and can be dropped |
| `Hqos.UsageIsExact` | plugins/osvbng_qos_sched/osvbng_qos_sched.h:794-852 | in every balanced state a tier's usage is the sum of the bytes charged beneath it, is at least any one of them, and is what its 32-bit register holds while that sum fits |
| `Hqos.ChargeChainUndo` | plugins/osvbng_qos_sched/osvbng_qos_sched.h:836-849 | a charge taken back along the same chain restores every tier |
| `Hqos.ReparentBalances` | plugins/osvbng_qos_sched/osvbng_qos_sched.c:258-298 | moving one scheduler between parents, active or not, with or without queued bytes, keeps both books balanced |
| `Hqos.UnreachableUnresolved` | plugins/osvbng_qos_sched/osvbng_qos_sched.c:162-205 | a tier that no map and no interface index names is resolved for no scheduler, whatever its interface path |
| `Hqos.ResolveDropped` | plugins/osvbng_qos_sched/osvbng_qos_sched.c:162-205 | so dropping it changes no scheduler's resolution |
| `Hqos.CreatePortBalances` | plugins/osvbng_qos_sched/osvbng_qos_sched.c:691-765 | adding a port tier and its index entry keeps books and indices |
| `Hqos.CreateTierBalances` | plugins/osvbng_qos_sched/osvbng_qos_sched.c:300-398 | adding an S-VLAN tier and its tags keeps books and indices |
| `Hqos.TakeTagsBalances` | plugins/osvbng_qos_sched/osvbng_qos_sched.c:400-451 | taking a tier's tags out of its port's map makes it unreachable and disturbs nothing else |
| `Hqos.DropAggBalances` | plugins/osvbng_qos_sched/osvbng_qos_sched.c:400-451 | an unreachable tier nobody is attached to holds nothing and can be dropped |
| `Hqos.ReconfigureBalances` | plugins/osvbng_qos_sched/osvbng_qos_sched.c:822-935 | a rate or weight update moves the parent's sum by the difference exactly while the parent counts the tier |
| `Hqos.Hqos.TierAdmit` | plugins/osvbng_qos_sched/cake_shaper.h:81-93 | add, verify, take back on refusal: admitted exactly when the 32-bit sum is within the limit, and nothing is left behind otherwise |
| `Hqos.Hqos.AdmitChain` | plugins/osvbng_qos_sched/osvbng_qos_sched.h:815-852 | run alone: both tiers are charged or neither, with the exact verdict of the two overload filters and the two add-and-verify steps |
| `Hqos.ChainAdmitsIs` | plugins/osvbng_qos_sched/osvbng_qos_sched.h:815-852 | admitted exactly when at both tiers the 32-bit register is within the limit, and still is with the packet added |
| `AdmitRace.StepKeepsInv` | plugins/osvbng_qos_sched/osvbng_qos_sched.h:794-852 | with any number of workers charging and releasing, each single load, fetch-add and fetch-sub keeps every tier's register equal to what was admitted plus refused additions not yet taken back |
| `AdmitRace.RunKeepsInv` | plugins/osvbng_qos_sched/osvbng_qos_sched.h:794-852 | and so does every interleaving |
| `AdmitRace.StartIsInv` | plugins/osvbng_qos_sched/osvbng_qos_sched.h:794-852 | a race may begin at any registers that agree with what is queued |
| `AdmitRace.OvershootBound` | plugins/osvbng_qos_sched/cake_shaper.h:77-93 | in every interleaving what is admitted stays within the limit, or within what was there before; the register exceeds it by at most one packet a worker in flight; with nobody in flight it is exactly what is queued |
| `AdmitRace.RoomAdmits` | plugins/osvbng_qos_sched/osvbng_qos_sched.h:815-852 | run by itself, a packet with room at its tiers is queued in at most five accesses, and each tier is charged its length |
| `Hqos.Hqos.Discharge` | plugins/osvbng_qos_sched/osvbng_qos_sched.h:794-806 | every tier of the scheduler's current chain gives the bytes back and no usage falls below zero |
| `Hqos.Hqos.ChargePacket` | plugins/osvbng_qos_sched/cake_enqueue.c:259-298 | an enqueue charges its chain, a full ring takes the whole charge back, and a refusal leaves everything as it was |
| `Hqos.Hqos.ReleasePacket` | plugins/osvbng_qos_sched/cake_dequeue.c:172-182 | a packet that leaves a queue, sent or dropped, is released from the scheduler and from its chain, and the books stay balanced |
| `Hqos.Hqos.Activate` | plugins/osvbng_qos_sched/osvbng_qos_sched.h:1018-1028 | idempotent; the weight joins the current parent once |
| `Hqos.Hqos.Deactivate` | plugins/osvbng_qos_sched/osvbng_qos_sched.h:1030-1037 | idempotent; the weight leaves the current parent once |
| `Hqos.Hqos.ResolveAttachment` | plugins/osvbng_qos_sched/osvbng_qos_sched.c:162-205 | the nearest port on the interface path, and the last tag seen before it: the scheduler hangs under the tier that tag is mapped to there, under the port when it is out of range, not mapped or none was seen, and under nothing when no port is reached |
| `Hqos.ResolveIs` | plugins/osvbng_qos_sched/osvbng_qos_sched.c:162-205 | the same of the resolution every configuration step uses |
| `Hqos.LeadsSomewhere` | plugins/osvbng_qos_sched/osvbng_qos_sched.c:162-205 | every interface path reaches a port in such a way, or none |
| `Hqos.Hqos.AggChain` | plugins/osvbng_qos_sched/osvbng_qos_sched.c:211-222 | the loop collects exactly the chain, without repetition |
| `Hqos.Hqos.MoveUsage` | plugins/osvbng_qos_sched/osvbng_qos_sched.c:288-296 | the two loops credit new-only tiers and debit old-only tiers and no other |
| `Hqos.Hqos.ReparentOne` | plugins/osvbng_qos_sched/osvbng_qos_sched.c:263-297 | one scheduler is re-resolved and its weight and charge follow it, whatever topology is found |
| `Hqos.Hqos.ReparentAll` | plugins/osvbng_qos_sched/osvbng_qos_sched.c:258-298 | every scheduler ends at its resolved parent with all books balanced |
| `Hqos.Hqos.AggregateCreate` | plugins/osvbng_qos_sched/osvbng_qos_sched.c:691-765 | error codes, derived limits and the new port; every scheduler re-resolved; balanced |
| `Hqos.NewAggIs` | plugins/osvbng_qos_sched/osvbng_qos_sched.c:691-765 | what a creation leaves, in its arguments: a millisecond of rate for a round, 150 ms of rate for a limit not given, at least 2^20 and at most 2^32 - 1, weight times rate for the share |
| `Hqos.ArgumentsAre` | plugins/osvbng_qos_sched/osvbng_qos_sched.c:691-765 | a multiplier above 256 and a burst outside 10 to 150 ms are refused, and 0 stands for the default |
| `Hqos.Hqos.AggregateDelete` | plugins/osvbng_qos_sched/osvbng_qos_sched.c:767-812 | refused while the port has S-VLANs; otherwise exactly the port is gone, every scheduler is attached where its tags now lead and keeps all else, and none is left at the port; balanced |
| `Hqos.Hqos.SvlanCreate` | plugins/osvbng_qos_sched/osvbng_qos_sched.c:300-398 | error codes in order; the whole tag range maps to the new tier; afterwards a scheduler hangs under it exactly when its path leads to this port with its outermost tag in the range, and moved there with weight and charge; balanced |
| `Hqos.Hqos.Attracted` | plugins/osvbng_qos_sched/osvbng_qos_sched.c:300-398 | in every valid state a tier has beneath it exactly the schedulers whose path leads to its port with an outermost tag of its range |
| `Hqos.Hqos.SvlanDelete` | plugins/osvbng_qos_sched/osvbng_qos_sched.c:400-451 | the tier's own tags are taken back, the tier is gone, every scheduler is attached where its tags now lead and keeps all else; balanced |
| `Hqos.Hqos.AggregateUpdate` | plugins/osvbng_qos_sched/osvbng_qos_sched.c:822-935 | the exact error code, a clash of rates included; the tier that the interface and the tag name alone is reconfigured, its parent's weight following; balanced |
| `Hqos.Hqos.UpdatedConfIs` | plugins/osvbng_qos_sched/osvbng_qos_sched.c:822-935 | what is given replaces what was there, what is not stays; a new rate brings the bytes of its own millisecond |
| `Hqos.Hqos.TargetIs` | plugins/osvbng_qos_sched/osvbng_qos_sched.c:822-860 | the tier named is the port's own, or the one of its S-VLANs whose range holds the tag, and none exactly when there is none |
| `Hqos.Hqos.NeverAbovePort` | plugins/osvbng_qos_sched/osvbng_qos_sched.c:867-890 | in every state between operations a tier is shaped no higher than its port: creation, both sides of an update and every other step keep it |
| `Hqos.Hqos.SchedEnable` | plugins/osvbng_qos_sched/osvbng_qos_sched.c:453-590 | error codes; a new scheduler is attached where its interface path leads, charged and weighing nothing |
| `Hqos.Hqos.SchedDisable` | plugins/osvbng_qos_sched/osvbng_qos_sched.c:601-640 | every backlog is discharged, the weight leaves, the scheduler is gone; balanced |
| `Hqos.Hqos.DeleteTree` | plugins/osvbng_qos_sched/osvbng_qos_sched.c:1382-1418 | a port goes with its S-VLANs: exactly those tiers, the others as configured; every scheduler re-resolved and otherwise untouched; balanced throughout |
| `Hqos.Hqos.InterfaceDeleted` | plugins/osvbng_qos_sched/osvbng_qos_sched.c:1382-1418 | scheduler, S-VLANs and port of a vanished interface go, so a reused index finds nothing; other tiers and indices stand, other schedulers keep all but a new resolution; balanced throughout |
| `CreditShare.TierDrawsItsShare` | plugins/osvbng_qos_sched/osvbng_qos_sched.h:893-909 | the quanta of a tier's active schedulers sum to at most the tier's own share of its port |
| `CreditShare.TierCreditConserved` | plugins/osvbng_qos_sched/osvbng_qos_sched.h:893-909 | the quanta of a tier's active schedulers sum to at most the tier's effective round bytes |
| `CreditShare.EffectiveRoundIs` | plugins/osvbng_qos_sched/osvbng_qos_sched.h:893-909 | what an active tier can hand on is the greatest whole number of bytes that fits both its own round and its part, by weight, of its port's |
| `CreditShare.PortCreditConserved` | plugins/osvbng_qos_sched/osvbng_qos_sched.h:874-909 | two tiers deep: the quanta of all active schedulers under a port, direct or under its S-VLANs, sum to at most the port's round bytes |
| `WeightRace.StepKeepsInv` | plugins/osvbng_qos_sched/osvbng_qos_sched.h:964-1037 | each single fetch-add or fetch-sub of a racing activation keeps the books that count what is still on its way up, for any number of racing workers |
| `WeightRace.WeightNeverWraps` | plugins/osvbng_qos_sched/osvbng_qos_sched.h:986-1006 | at no point of any interleaving is a published weight below zero, not even between a tier's update and its parent's |
| `WeightRace.CountNeverWraps` | plugins/osvbng_qos_sched/osvbng_qos_sched.h:986-1006 | the same for the child count |
| `WeightRace.QuiescentIsBalanced` | plugins/osvbng_qos_sched/osvbng_qos_sched.h:958-963 | with nobody in flight the racing books are exactly the sequential ones, in both directions |
| `WeightRace.EveryRunIsBalanced` | plugins/osvbng_qos_sched/osvbng_qos_sched.h:958-1037 | every interleaving that ends with nobody in flight ends balanced |
| `WeightRace.ToggleCompletes` | plugins/osvbng_qos_sched/osvbng_qos_sched.h:964-1037 | run by itself, a change of activity is done within four operations, and only that scheduler's activity differs |
| `Rate.CostTracksRate` | plugins/osvbng_qos_sched/cake_shaper.h:30-43 | a packet is never charged more time than it takes on the wire, and falls short by less than a nanosecond and 2^-16 ns a byte |
| `Rate.RateErrorIff` | plugins/osvbng_qos_sched/cake_shaper.h:25-36 | the promised error under 0.01% holds of every rate up to a limit exactly when the limit is below 6554255426 bytes a second; up to 100 Gbit/s the error is under 0.02% |
| `DequeueGate.TakeKeepsGate` | plugins/osvbng_qos_sched/cake_shaper.h:50-75 | a take clamps idle credit to the burst and leaves the virtual time at least the cost taken past the window's start less the burst |
| `DequeueGate.RefundKeepsGate` | plugins/osvbng_qos_sched/osvbng_qos_sched.h:1092-1093 | an unwind never takes the virtual time below zero, whatever clamps came in between |
| `DequeueGate.ToppedUpDeficit` | plugins/osvbng_qos_sched/cake_drr.h:354-369 | the refill computed on the biased half and truncated to 32 bits is the signed refill |
| `DequeueGate.DecideDeficit` | plugins/osvbng_qos_sched/cake_drr.h:345-395 | one decision in signed terms: admitted exactly when the deficit after the refill is positive, or above -2048 with the parent's time a millisecond behind; the charge, and at most one quantum more; the low half stays clear of both its ends |
| `DequeueGate.OnlyDebtIsRefused` | plugins/osvbng_qos_sched/cake_drr.h:325-395 | work conservation, in any exchange of any interleaving: a child is turned away only in debt, and under a parent a millisecond behind the clock only while it owes 2048 bytes or more |
| `DequeueGate.NoWrapUnderneath` | plugins/osvbng_qos_sched/cake_drr.h:350-394 | a compare-and-swap that succeeds really saw the round it decided on: the 32-bit tag cannot have come round in between |
| `DequeueGate.WordRefund` | plugins/osvbng_qos_sched/cake_drr.h:406-410 | a refund added to the whole 64-bit word leaves the round half alone |
| `DequeueGate.StepKeepsInv` | plugins/osvbng_qos_sched/osvbng_qos_sched.h:1052-1125 | every load, exchange, refund and unwind by any worker keeps the bounds of both gates and of the packed word |
| `DequeueGate.RunKeepsInv` | plugins/osvbng_qos_sched/osvbng_qos_sched.h:1052-1125 | and so does every interleaving |
| `DequeueGate.OpenGatesPass` | plugins/osvbng_qos_sched/osvbng_qos_sched.h:1052-1125 | a run that must pass its packet: with both gates open and credit or the escape for the child, seven accesses charge both tiers exactly, idle credit cut to the burst, and the packet is through |
| `DequeueGate.GateRateBound` | plugins/osvbng_qos_sched/osvbng_qos_sched.h:1052-1125 | in every interleaving, with clock samples in any order within a window, each tier lets through at most the window plus its burst plus one packet's cost, unwound packets excluded |
| `DequeueGate.SharedBytesBound` | plugins/osvbng_qos_sched/cake_drr.h:325-410 | in every interleaving the bytes reserved and kept, escapes included, are at most the initial credit, the quanta issued, 2047 and one packet; each quantum is this child's share for the weight its refill read, and there is at most one for each advance of the round; the halves never carry or borrow |
| `DequeueGate.ShareIs` | plugins/osvbng_qos_sched/cake_drr.h:137-148 | what a refill of the shared word issues: the greatest whole number of bytes within the child's part, by weight, of the round |
| `DequeueGate.SharedShareBound` | plugins/osvbng_qos_sched/cake_drr.h:325-410 | while the parent's weight is never read below w, at most the child's share against w for each advance of the round |
| `DequeueGate.NothingLeftTaken` | plugins/osvbng_qos_sched/osvbng_qos_sched.h:1090-1117 | when nobody is inside, the S-VLAN has been charged for exactly the packets that passed the port |
| `DequeueGate.EndIsStart` | plugins/osvbng_qos_sched/cake_drr.h:400-416 | wherever a run leaves nobody inside, the next window may begin with the credit as it is and any new rates, exactly if there is headroom for it |
| `Drr.RefillDueExactly` | plugins/osvbng_qos_sched/cake_drr.h:96-119 | the wrapping refill test is true exactly on the leads congruent to those outside the last 2^20 rounds |
| `Drr.RefillDueAgrees` | plugins/osvbng_qos_sched/cake_drr.h:85-119 | on every true lead from -2^20 up to 2^32 - 2^20 it agrees with comparing unbounded rounds |
| `Drr.Child.Refill` | plugins/osvbng_qos_sched/cake_drr.h:150-174 | all of the quantum is added, unless that would exceed both two of them and a packet, then the larger of those is held; debt is repaid and never forgiven |
| `Drr.Child.LocalAdmit` | plugins/osvbng_qos_sched/cake_drr.h:191-241 | a visit is the one of the no-starvation run; admitted exactly when the deficit is positive, or above -2048 with the parent's time a millisecond behind the clock; the deficit stays bounded, and stays so after charging any admitted packet |
| `Drr.Child.SchedAdmit` | plugins/osvbng_qos_sched/osvbng_qos_sched.h:911-951 | round bytes resolved only when the round number moved give the same admission and state as bytes resolved on every visit; the later time of the two tiers decides the escape; with both a millisecond behind, refused exactly while it owes 2048 bytes or more |
| `Drr.Child.LocalCharge` | plugins/osvbng_qos_sched/cake_drr.h:243-252 | the whole length is charged and the debt bound holds |
| `Drr.Child.Activate` | plugins/osvbng_qos_sched/cake_drr.h:254-274 | going active forfeits credit and keeps debt, and the debt stays in bounds; the transition is reported once |
| `Drr.WeightMovesOnce` | plugins/osvbng_qos_sched/cake_drr.h:254-284 | however often a child is activated and deactivated, in whatever order, its parent holds its weight once while it is active and not at all while it is not |
| `Drr.RepaysAtLeast` | plugins/osvbng_qos_sched/cake_drr.h:150-174 | each visit that refills repays at least the smallest quantum a refill issues, and no other visit takes any, until the child is in credit |
| `Drr.NoStarvation` | plugins/osvbng_qos_sched/cake_drr.h:198-241 | whatever it owes within the bound, a child whose refills issue at least q is admitted at some visit once ceil((2048 + L) / q) of them have refilled it, with any number of visits inside a round in between, for which no round bytes are resolved, and whatever weights and times they read |
| `Drr.EveryRoundRefills` | plugins/osvbng_qos_sched/cake_drr.h:96-119 | visits in successive rounds all refill, as long as the child is not left untouched until its 32-bit tag is ambiguous |
| `Drr.QuantumFalls` | plugins/osvbng_qos_sched/cake_drr.h:137-148 | the more weight a child shares its parent with, the smaller its quantum |
| `Drr.QuantumIs` | plugins/osvbng_qos_sched/cake_drr.h:137-148 | the quantum is the greatest whole number of bytes within the child's part, by weight, of the round |
| `Cobalt.NewtonSafety` | plugins/osvbng_qos_sched/osvbng_qos_sched.h:460-469 | from any estimate with count * x^2 below 3 * 2^64 the step neither underflows, overflows nor truncates, equals the exact quotient, and lands where the next count may step again |
| `Cobalt.StepConverges` | plugins/osvbng_qos_sched/osvbng_qos_sched.h:460-469 | one step brings count * x^2 below 64/27 of 2^64, whatever rounding lost |
| `Cobalt.CacheInit` | plugins/osvbng_qos_sched/cake_cobalt.c:17-35 | the loop fills the table with 2^32 / sqrt(count), within two tenths of a percent of the square on both sides, so every entry is a starting point for its own and the following count |
| `Cobalt.InvsqrtKeeps` | plugins/osvbng_qos_sched/osvbng_qos_sched.h:471-478 | moving the count by one, or holding it at the 32-bit ceiling, keeps the state reachable, with no Newton step that wraps or truncates |
| `Cobalt.StepLands` | plugins/osvbng_qos_sched/osvbng_qos_sched.h:460-469 | a Newton step from a w between a and b lands at or above what the cubic gives at both ends, rounding included |
| `Cobalt.EstimateIsNear` | plugins/osvbng_qos_sched/osvbng_qos_sched.h:460-478 | every estimate in use is 2^32 / sqrt(count) on both sides: count * x^2 is between 1/8 and 2.38 of 2^64 at any count up to 2^32 - 1, and within 0.2% of it for a cached one |
| `Cobalt.RunStaysSharp` | plugins/osvbng_qos_sched/osvbng_qos_sched.h:460-478 | over any run of movements below 2^24 drops count * x^2 stays within one percent of 2^64 |
| `Cobalt.ControlIs` | plugins/osvbng_qos_sched/osvbng_qos_sched.h:480-484 | the next drop lies interval * x / 2^32, rounded down, after its base, modulo 2^32 |
| `Cobalt.Spacing` | plugins/osvbng_qos_sched/osvbng_qos_sched.h:480-484 | so the spacing of drops is interval / sqrt(count) as closely as the estimate is near |
| `Cobalt.SpacingFalls` | plugins/osvbng_qos_sched/osvbng_qos_sched.h:480-484 | and it falls with every growth of the count beyond the estimates' tolerance |
| `Cobalt.EveryRunIsSafe` | plugins/osvbng_qos_sched/osvbng_qos_sched.h:460-596 | along every run of count movements, from any reachable state, each Newton step is safe and exact |
| `Cobalt.Relaxed` | plugins/osvbng_qos_sched/osvbng_qos_sched.h:576-584 | the decay loop ends with the count spent or the next drop in the future |
| `Cobalt.Aqm.QueueFull` | plugins/osvbng_qos_sched/osvbng_qos_sched.h:486-500 | BLUE's saturating increase and the armed state |
| `Cobalt.Aqm.QueueEmpty` | plugins/osvbng_qos_sched/osvbng_qos_sched.h:502-523 | BLUE's floored decrease, and one step of the count down if a drop was due, the next put interval / sqrt(count) after it, modulo 2^32 and within the estimate's factor |
| `Cobalt.Aqm.Relax` | plugins/osvbng_qos_sched/osvbng_qos_sched.h:576-584 | the loop of catch-up steps: each lowers the count by one and moves the next drop on by interval / sqrt(count), while another drop was missed and no longer |
| `Cobalt.Aqm.Schedule` | plugins/osvbng_qos_sched/osvbng_qos_sched.h:480-484 | the next drop moves on by d with d * 2^32 <= interval * invsqrt < (d + 1) * 2^32, which is interval / sqrt(count) within the estimate's factor |
| `Cobalt.Aqm.Arm` | plugins/osvbng_qos_sched/osvbng_qos_sched.h:544-556 | a queue that begins to stand has its first drop one spacing from now and a count of at least one |
| `Cobalt.Aqm.Act` | plugins/osvbng_qos_sched/osvbng_qos_sched.h:558-574 | a drop that is due raises the count, held at the ceiling, and puts the next one spacing of it on |
| `Cobalt.Aqm.ShouldDrop` | plugins/osvbng_qos_sched/osvbng_qos_sched.h:525-596 | the complete decision and next state, in the registers' own arithmetic: when the queue stands, whether to mark or drop, the count, BLUE; the first drop one spacing from now, the next one spacing of the new count after the last, or the missed ones given up step by step |
| `FlowQueue.PushAppends` | plugins/osvbng_qos_sched/cake_enqueue.c:302-303 | a store at the free-running 32-bit tail appends to the queue, across the counter's wrap |
| `FlowQueue.PopTakesOldest` | plugins/osvbng_qos_sched/cake_dequeue.c:146-146 | advancing the head removes the oldest packet, and moving it back after a refusal restores the ring exactly |
| `FlowLists.Prepend` | plugins/osvbng_qos_sched/osvbng_qos_sched.h:642-656 | the list becomes the new flow followed by the old list; no link outside it is written |
| `FlowLists.Append` | plugins/osvbng_qos_sched/osvbng_qos_sched.h:658-672 | the list becomes the old list followed by the new flow; no link outside it is written |
| `FlowLists.Remove` | plugins/osvbng_qos_sched/osvbng_qos_sched.h:674-692 | the list loses exactly that flow, which ends loose; no link outside it is written |
| `TinState.HistoryPush` | plugins/osvbng_qos_sched/cake_enqueue.c:302-313 | flow by flow, arrivals stay equal to departures followed by what is queued |
| `TinState.HistoryLeave` | plugins/osvbng_qos_sched/cake_dequeue.c:146-182 | the same when the oldest packets of a flow leave |
| `TinState.HostsAt` | plugins/osvbng_qos_sched/cake_enqueue.c:321-338 | a host's counter that goes up only where a flow turned bulk, and down or to zero freely, never exceeds the host's bulk flows |
| `TinState.TotalsAt` | plugins/osvbng_qos_sched/osvbng_qos_sched.h:857-874 | replacing one flow moves packets queued, bytes queued and credit owed by that flow's difference alone |
| `Tins.HostShare` | plugins/osvbng_qos_sched/osvbng_qos_sched.h:444-458 | the bulk flows of one host together get at most the tin's quantum, or a byte each, and all of it but two bytes for each flow |
| `Tins.Adjust` | plugins/osvbng_qos_sched/osvbng_qos_sched.h:364-373 | never below the minimum packet unit and exactly that or the framed length; under ATM the least whole number of 53-byte cells that carries it |
| `Tins.HostLookup` | plugins/osvbng_qos_sched/osvbng_qos_sched.h:422-442 | the first of four probes that is the host's or unused, or else the first probe, taken over and reset; one slot is written and no counter rises |
| `Tins.FlowLookup` | plugins/osvbng_qos_sched/osvbng_qos_sched.h:723-760 | the tag's own way, or the first empty way, or none and the first way of least backlog as victim |
| `Tins.Tin.constructor` | plugins/osvbng_qos_sched/osvbng_qos_sched.c:88-118 | an empty tin satisfies every invariant |
| `Tins.Tin.SelectFlow` | plugins/osvbng_qos_sched/cake_dequeue.c:89-99 | the head of the new list, then of the old one, then of the decaying one; none exactly when all are empty |
| `Tins.Tin.Admit` | plugins/osvbng_qos_sched/cake_enqueue.c:222-232 | a packet's tag ends in exactly one slot of its set; an eviction happens exactly when every way is taken by other tags, and drops what the victim held |
| `Tins.Tin.Evict` | plugins/osvbng_qos_sched/cake_enqueue.c:53-88 | the flow's packets are dropped in order, its list and counters follow its state, the slot is zeroed |
| `Tins.Tin.Discard` | plugins/osvbng_qos_sched/osvbng_qos_sched.h:854-874 | a flow's whole queue is counted as dropped and its ring freed |
| `Tins.Tin.Open` | plugins/osvbng_qos_sched/cake_enqueue.c:271-285 | an unused flow takes a ring, a host slot and one quantum, and heads the new list |
| `Tins.Tin.Push` | plugins/osvbng_qos_sched/cake_enqueue.c:301-313 | the packet joins the end of its flow |
| `Tins.Tin.Promote` | plugins/osvbng_qos_sched/cake_enqueue.c:315-338 | a second packet turns a sparse flow bulk and any packet a decaying one; a bulk flow keeps its place |
| `Tins.Tin.TurnBulk` | plugins/osvbng_qos_sched/cake_enqueue.c:315-338 | state, list, counters and host counter change together: the flow's host alone has one bulk flow more |
| `Tins.Tin.Accept` | plugins/osvbng_qos_sched/cake_enqueue.c:271-338 | open, push and promote together restore every invariant and add one packet and its bytes |
| `Tins.Tin.Dequeue` | plugins/osvbng_qos_sched/cake_dequeue.c:101-248 | the checks in order: blocked before the AQM is asked when the local share is spent, dropped exactly when it is not and the AQM says so, sent exactly when neither and both gates are open; a refused packet is put back exactly; a flow pays for what is sent alone |
| `Tins.Tin.Decay` | plugins/osvbng_qos_sched/cake_dequeue.c:406-421 | a drained bulk flow moves to the back of the decaying list and its host alone has one bulk flow less |
| `Tins.Tin.Rotate` | plugins/osvbng_qos_sched/cake_dequeue.c:461-470 | a bulk flow that spent its credit goes from the head of the old list to its back, its debt cleared |
| `Tins.Tin.TopUp` | plugins/osvbng_qos_sched/cake_dequeue.c:401-402 | a flow without credit earns one quantum, for the bulk flows of its own host, never zero |
| `Tins.Tin.Reclaim` | plugins/osvbng_qos_sched/cake_dequeue.c:58-87 | a drained flow leaves its list, its counters, its ring and its tag |
| `Tins.Tin.Drain` | plugins/osvbng_qos_sched/osvbng_qos_sched.c:120-136 | every queue is discarded; the packets and bytes returned are all the tin held |
| `Tins.Tin.ListsAreExact` | plugins/osvbng_qos_sched/cake_enqueue.c:53-338 | in every valid tin the three lists hold exactly the sparse, bulk and decaying flows, disjoint, with counters their sizes; sparse means one packet, decaying and unused none; host counters never exceed the truth |
| `Tins.Tin.DeliveredInOrder` | plugins/osvbng_qos_sched/cake_dequeue.c:101-248 | for every flow hash, what left is the oldest part of what arrived, in order, and the rest is queued |
| `Tins.Tin.SentInOrder` | plugins/osvbng_qos_sched/cake_dequeue.c:101-248 | what a stretch of service sent of a flow stands at increasing places among the packets that arrived for it next; what is missing of them was dropped |
| `Scheduler.LowerIsFewer` | plugins/osvbng_qos_sched/cake_dequeue.c:319-476 | a step down in one tin's measure is a step down in the scheduler's lexicographic one |
| `Scheduler.Sched.constructor` | plugins/osvbng_qos_sched/osvbng_qos_sched.c:541-574 | a scheduler over empty tins starts with all books at zero |
| `Scheduler.Sched.DequeueOne` | plugins/osvbng_qos_sched/cake_dequeue.c:101-248 | the same with the scheduler's own accounting, shaper included: each outcome exactly in terms of the local share, the AQM and the gates, and nothing changed by a refusal |
| `Scheduler.Sched.Charge` | plugins/osvbng_qos_sched/cake_dequeue.c:209-213 | the shaper clock is never left more than 150 ms ahead; it advances by at most the packet's cost, by all of it unless held there, and never goes back from within |
| `Scheduler.Sched.ServeSparse` | plugins/osvbng_qos_sched/cake_dequeue.c:355-399 | a sparse flow is visited once and reclaimed as soon as its packet is gone |
| `Scheduler.Sched.SpendCredit` | plugins/osvbng_qos_sched/cake_dequeue.c:404-459 | the inner loop ends; unless stopped it sent or dropped something, or moved the flow to its next list |
| `Scheduler.Sched.ServeFlow` | plugins/osvbng_qos_sched/cake_dequeue.c:401-471 | one turn of a bulk or decaying flow lowers the measure unless something stopped the walk; a flow that spent its credit with packets left goes to the back |
| `Scheduler.Sched.PickTin` | plugins/osvbng_qos_sched/cake_dequeue.c:321-332 | strict priority: the highest busy tin, none when all are idle |
| `Scheduler.Sched.IdleIsDrained` | plugins/osvbng_qos_sched/cake_dequeue.c:334-342 | when no tin is busy no packet is queued, so deactivation strands nothing |
| `Scheduler.Sched.Serve` | plugins/osvbng_qos_sched/cake_dequeue.c:319-476 | one pass over the front flow keeps every tin and every counter, and lowers the measure if the walk goes on |
| `Scheduler.Sched.Walk` | plugins/osvbng_qos_sched/cake_dequeue.c:316-476 | the dispatch walk terminates for every queue state and every sequence of answers; each answer is asked once, in turn, and takes one packet: each before the stop passed the local share and was dropped by the AQM or found the gates open, those not dropped are the packets sent, and the one that stops it had its share spent or, not dropped, its gates shut; it ends only drained, out of budget, held by the shaper, or refused so; every packet was sent with the shaper open, whose clock is exactly theirs; what it sends is, tin by tin, what left the tin in that order but for the packets dropped; every invariant and counter equation survives |
| `Scheduler.AnswersTell` | plugins/osvbng_qos_sched/cake_dequeue.c:101-248 | what a walk's answers say: each packet it took passed the local share, those not dropped by the AQM had open gates and are exactly as many as were sent; a refusal is a spent share, or shut gates for a packet not dropped |
| `Scheduler.Sched.SentIsEarned` | plugins/osvbng_qos_sched/cake_dequeue.c:209-213 | what a dispatch sends, all but its last packet, costs no more than the time since the shaper's clock; the clock moves by the cost of all of it, up to the slack |
| `Scheduler.Sched.MakeRoom` | plugins/osvbng_qos_sched/cake_enqueue.c:222-232 | an eviction's packets and bytes leave the counters and the aggregate charge |
| `Scheduler.Sched.PlaceIn` | plugins/osvbng_qos_sched/cake_enqueue.c:233-350 | over the limit, refused by the aggregates, ring full, or taken: exactly which, each with its accounting; a full ring returns the aggregate charge |
| `Scheduler.Sched.Room` | plugins/osvbng_qos_sched/cake_enqueue.c:213-232 | the packet's tag has a slot; exactly a crowded set costs the evicted flow's bytes, and leaves the slot empty |
| `Scheduler.Sched.Enqueue` | plugins/osvbng_qos_sched/cake_enqueue.c:213-350 | the exact verdict and usage, eviction included: a crowded set's flow goes first with its bytes, then limit, tiers and ring decide; a taken packet is the last arrival of its tin and leaves the scheduler active and polled; counters stay exact |
| `Scheduler.Sched.ResetStats` | plugins/osvbng_qos_sched/osvbng_qos_sched.c:662-689 | counters start over and what is queued is carried into the new balance |
| `Scheduler.Sched.TearDown` | plugins/osvbng_qos_sched/osvbng_qos_sched.c:616-618 | draining every tin returns every byte the scheduler had charged |
| `QosPlugin.UsageIsQueued` | plugins/osvbng_qos_sched/cake_enqueue.c:259-313 | in every valid state a scheduler's byte counter is the bytes of the packets queued in its tins |
| `QosPlugin.Plugin.TierHoldsQueuedBytes` | plugins/osvbng_qos_sched/osvbng_qos_sched.h:794-806 | in every valid state of the tree and the schedulers together a tier's usage is the bytes of the packets queued in the tins beneath it |
| `QosPlugin.Plugin.PlaceIn` | plugins/osvbng_qos_sched/cake_enqueue.c:233-350 | the packet's fate exactly, from limit, tree and ring; the tree after it exactly: the chain charged, and the weight joined on activation, for a taken packet alone; usage and queues stay in step |
| `QosPlugin.Plugin.Enqueue` | plugins/osvbng_qos_sched/cake_enqueue.c:213-350 | the same for a whole arrival: what an eviction dropped is released first, then the tree's answer to what is left decides; every tier's usage stays the bytes queued beneath it |
| `QosPlugin.Plugin.Dispatch` | plugins/osvbng_qos_sched/cake_dequeue.c:316-476 | a dispatch ends for its walk's reasons, each in terms of the local share, the AQM and the gates; the tree after it exactly: what was sent and dropped released along the chain, the weight withdrawn exactly when the scheduler is drained; usage and queues stay in step |
| `QosPlugin.Plugin.Enable` | plugins/osvbng_qos_sched/osvbng_qos_sched.c:453-590 | the exact result; a new scheduler with its own empty queues hangs where its interface path leads, idle and uncharged; usage and queues stay in step |
| `QosPlugin.Plugin.Disable` | plugins/osvbng_qos_sched/osvbng_qos_sched.c:592-640 | the tins are drained, what was held leaves the chain, exactly that scheduler and its index entry go, the tiers stand as configured |
| `QosPlugin.Plugin.InterfaceDeleted` | plugins/osvbng_qos_sched/osvbng_qos_sched.c:1382-1418 | the interface's scheduler with its queues, its S-VLANs and its port go, with both index entries; other tiers stand as configured, other schedulers keep all but a new resolution; usage and queues stay in step |
| `QosPlugin.Plugin.CreatePort` | plugins/osvbng_qos_sched/osvbng_qos_sched.c:691-765 | with packets queued: the exact result, the new port, schedulers moved beneath it with all they hold, and every tier's usage still the bytes queued beneath it |
| `QosPlugin.Plugin.DeletePort` | plugins/osvbng_qos_sched/osvbng_qos_sched.c:767-812 | with packets queued: the exact result, the port gone, its schedulers moved off with all they hold, and every tier's usage still the bytes queued beneath it |
| `QosPlugin.Plugin.CreateTier` | plugins/osvbng_qos_sched/osvbng_qos_sched.c:300-398 | with packets queued: the exact result, the new tier with its tags, exactly the schedulers led to its port by a tag of the range moved under it with all they hold, and every tier's usage still the bytes queued beneath it |
| `QosPlugin.Plugin.DeleteTier` | plugins/osvbng_qos_sched/osvbng_qos_sched.c:400-451 | with packets queued: the exact result, the tier and its tags gone, its schedulers moved off with all they hold, and every tier's usage still the bytes queued beneath it |
| `QosPlugin.Plugin.UpdateTier` | plugins/osvbng_qos_sched/osvbng_qos_sched.c:822-935 | with packets queued: the exact result and tree, and every tier's usage still the bytes queued beneath it |
| `SessionList.InsertOk` | plugins/osvbng_cgnat/osvbng_cgnat_session.c:432-446 | head insertion through the pool's own link fields yields the new session followed by the old list |
| `SessionList.UnlinkOk` | plugins/osvbng_cgnat/osvbng_cgnat_session.c:497-510 | unlinking yields the list without the session, head included |
| `CgnatStore.CreateKeeps` | plugins/osvbng_cgnat/osvbng_cgnat_session.c:305-449 | an installation keeps the in2out bijection, the lists, the counters and the owners, given that the inside key was free |
| `CgnatStore.DeleteKeeps` | plugins/osvbng_cgnat/osvbng_cgnat_session.c:454-510 | so does a deletion, although the outside entry it removes may belong to a later session |
| `CgnatStore.CreateReaches` | plugins/osvbng_cgnat/osvbng_cgnat_session.c:414-426 | a creation leaves every session reachable from outside exactly when all were and none has the new session's outside key |
| `CgnatStore.DeleteReaches` | plugins/osvbng_cgnat/osvbng_cgnat_session.c:454-513 | a deletion leaves another session reachable exactly when it was and its outside key is its own |
| `SessionRuns.ReachableIff` | plugins/osvbng_cgnat/osvbng_cgnat_session.c:305-513 | over any run of creations and deletions a live session stays reachable from outside exactly when no other session with its outside key is made or ends meanwhile |
| `CgnatStore.GrantsHeldIff` | plugins/osvbng_cgnat/osvbng_cgnat_session.c:234-266 | the allocator hands out a port in use exactly when a live session of the mapping holds the first port that is not resting |
| `CgnatStore.GrantedAgainIff` | plugins/osvbng_cgnat/osvbng_cgnat_session.c:234-266 | with no release in between, a later allocation comes back to a port just granted exactly when every other port of the block is resting |
| `CgnatStore.Store.ReusedPort` | plugins/osvbng_cgnat/osvbng_cgnat_session.c:215-513 | the run allocate, create, allocate, create, delete to one remote endpoint: the ports are equal exactly when every other port rests at the second; then the later session takes the outside entry over, its end removes it, and the earlier one, still alive, is found from outside no more |
| `CgnatStore.Store.OpenFlow` | plugins/osvbng_cgnat/osvbng_cgnat_in2out.c:583-648 | a port and a session on it: the exact new tables and cursor, and the reply's tuple, written out, led to it |
| `CgnatStore.GrantedIsFirst` | plugins/osvbng_cgnat/osvbng_cgnat_session.c:240-263 | the port granted is the one not resting that is first from the cursor on, each port of the block tried once; there is none exactly when all rest |
| `CgnatStore.GrantIs` | plugins/osvbng_cgnat/osvbng_cgnat_session.c:234-266 | the same in release times: every port from the cursor up to the granted one was released in the last 120 seconds, that one was not, and the cursor moves behind it, around the end of the block |
| `CgnatStore.Store.NextPort` | plugins/osvbng_cgnat/osvbng_cgnat_session.c:240-263 | the loop over the block yields that port and cursor |
| `CgnatStore.Store.PortAlloc` | plugins/osvbng_cgnat/osvbng_cgnat_session.c:234-266 | the first port from the cursor on that was not released in the last 120 seconds, within the block, and the cursor behind it; 0 exactly when all are resting or the port found is port 0 |
| `CgnatStore.Store.PortFree` | plugins/osvbng_cgnat/osvbng_cgnat_session.c:268-279 | a port of the block starts its rest; any other is ignored |
| `CgnatStore.Store.LookupIn2out` | plugins/osvbng_cgnat/osvbng_cgnat_session.c:196-213 | found exactly when a live session has the key |
| `CgnatStore.Store.LookupOut2in` | plugins/osvbng_cgnat/osvbng_cgnat_session.c:215-232 | what is found is a live session with that very key |
| `CgnatStore.Store.Create` | plugins/osvbng_cgnat/osvbng_cgnat_session.c:305-449 | refused exactly at the subscriber cap or the pool's capacity, with the reservation undone; otherwise the session with exactly its two tuples, written out: inside address to remote, outside address to remote with the port or identifier; both keys, written out, lead to it; first in its mapping's list |
| `CgnatStore.Store.EndsAreMappings` | plugins/osvbng_cgnat/osvbng_cgnat_session.c:305-380 | in every valid state a session's inside end is its mapping's inside address and fib, its outside end the mapping's outside address and granted port and the pool's fib, with one remote |
| `CgnatStore.Store.Delete` | plugins/osvbng_cgnat/osvbng_cgnat_session.c:454-513 | exactly that session, its two entries and its place in the list; the subscriber's count falls by one and the port, if it is of the block, starts its rest |
| `CgnatStore.Store.SlowPath` | plugins/osvbng_cgnat/osvbng_cgnat_in2out.c:561-648 | lookup, allocate, create: the exact verdict, exhaustion and limits included; one session a key, never two; a reply to the mapping's outside address and granted port, written out, is led to the new session; every refusal leaves sessions and tables as they were; whether all stay reachable from outside |
| `CgnatStore.Store.Expired` | plugins/osvbng_cgnat/osvbng_cgnat_session.c:518-534 | the table walk finds exactly the sessions whose last packet is longer ago than their timeout |
| `CgnatStore.Store.ExpireWalk` | plugins/osvbng_cgnat/osvbng_cgnat_session.c:536-564 | exactly those are reaped, the others untouched |
| `CgnatStore.Store.ReapList` | plugins/osvbng_cgnat/osvbng_cgnat.c:407-416 | the loop over the mapping's own list ends and reaps exactly its sessions |
| `CgnatStore.Store.MappingAdd` | plugins/osvbng_cgnat/osvbng_cgnat.c:303-381 | one mapping a subscriber, with the exact result; duplicates are a no-op or a refresh request; a failed enable rolls back to the exact state before |
| `CgnatStore.Store.MappingDelete` | plugins/osvbng_cgnat/osvbng_cgnat.c:247-430 | the exact result, for a missing pool or table too; the mapping and exactly its sessions go; nothing points at it afterwards |
| `CgnatStore.Store.CascadeDelete` | plugins/osvbng_cgnat/osvbng_cgnat.c:49-85 | exactly the pool's sessions and mappings go, all others stay as they are |
| `CgnatStore.Store.PoolDelete` | plugins/osvbng_cgnat/osvbng_cgnat.c:127-147 | afterwards nothing names the pool |
| `CgnatStore.Store.SetOutsideFib` | plugins/osvbng_cgnat/osvbng_cgnat.c:181-246 | the exact result: no such pool, no such table, refused while sessions live unless the pool has no outside fib yet; no session ever caches a stale one |
| `Checksum.NetEffect` | plugins/osvbng_cgnat/osvbng_cgnat_session.c:281-303 | under either sign convention of the library the delta's net effect on a checksum is old minus new (section 3 of RFC 1624) |
| `Checksum.DeltasCancel` | plugins/osvbng_cgnat/osvbng_cgnat_session.c:112-128 | the deltas of the two directions cancel, for sessions and for fragment records |
| `Checksum.UdpUpdate` | plugins/osvbng_cgnat/osvbng_cgnat.h:772-783 | a zero UDP checksum stays zero and a nonzero one stays nonzero, with the right residue (RFC 768) |
| `Translate.Rewrite` | plugins/osvbng_cgnat/osvbng_cgnat_in2out.c:115-168 | the source rewrite changes the address, the port or echo identifier and the two checksums, and no other word |
| `Translate.RewrittenWords` | plugins/osvbng_cgnat/osvbng_cgnat_in2out.c:115-168 | word by word: the source is words 6 and 7 of the header, the destination 8 and 9; a port of TCP and UDP, the identifier of an echo; every other word but the checksums stands |
| `Translate.IpStillVerifies` | plugins/osvbng_cgnat/osvbng_cgnat_out2in.c:107-121 | an IPv4 header that verified still does after either direction's rewrite |
| `Translate.L4StillVerifies` | plugins/osvbng_cgnat/osvbng_cgnat_out2in.c:107-160 | so does a TCP, UDP or ICMP echo checksum, pseudo-header included |
| `IcmpError.Refresh` | plugins/osvbng_cgnat/osvbng_cgnat_out2in.c:458-466 | the recomputed ICMP checksum verifies |
| `IcmpError.Revert` | plugins/osvbng_cgnat/osvbng_cgnat_out2in.c:418-470 | outer address, quoted header and quoted transport bytes are put back with their checksums, the other words stay, and the message verifies |
| `IcmpError.NamedIs` | plugins/osvbng_cgnat/osvbng_cgnat_out2in.c:383-417 | the words of a quote that name a session, at either end: addresses, ports or identifier, protocol, and the header length in 32-bit words |
| `ErrorPath.SlowPath` | plugins/osvbng_cgnat/osvbng_cgnat_out2in.c:348-484 | the exact verdict from the real lookup: truncated, of an unknown protocol or of no session exactly then, with nothing written; otherwise the session found is the table's and the message is reverted by it |
| `ErrorPath.QuoteNamesSession` | plugins/osvbng_cgnat/osvbng_cgnat_out2in.c:383-417 | the tuple a quote is looked up by is the key of the session that translated the packet |
| `ErrorPath.ErrorComesBack` | plugins/osvbng_cgnat/osvbng_cgnat_in2out.c:430-566 | both directions end to end: a packet of a session is translated, quoted and handled; then the quote is taken for that session, the quoted header is the packet's but for its checksum's representation, TCP and UDP bytes are exactly the packet's, and the message verifies |
| `IcmpError.HeaderRestored` | plugins/osvbng_cgnat/osvbng_cgnat_out2in.c:425-432 | translate, quote, revert restores the quoted IPv4 header, its checksum up to the two representations of zero |
| `IcmpError.PayloadRestored` | plugins/osvbng_cgnat/osvbng_cgnat_in2out.c:510-543 | translate, quote, revert restores the quoted TCP and UDP bytes exactly, the UDP checksum included, and an echo up to the representation of its checksum |
| `DetMap.RatioCovers` | plugins/osvbng_cgnat/osvbng_cgnat_api.c:151-160 | two prefixes, whatever their lengths: the sharers always fit on the outside addresses |
| `DetMap.Pool.Lookup` | plugins/osvbng_cgnat/osvbng_cgnat.h:639-654 | the first entry that covers the address, or none |
| `DetMap.Pool.AddInside` | plugins/osvbng_cgnat/osvbng_cgnat_api.c:109-120 | no lookup that succeeded changes; a host of the new prefix that no earlier entry covers is found exactly when the prefix does not reach the end of the address space |
| `DetMap.RatioFits` | plugins/osvbng_cgnat/osvbng_cgnat_api.c:151-160 | the sharers of an address fit its ports exactly when all hosts fit all ports of all addresses |
| `DetMap.Pool.AddOutside` | plugins/osvbng_cgnat/osvbng_cgnat_api.c:149-161 | the latest entry is completed with ratio and ports from the two prefix lengths, and is usable exactly when the inside prefix has no more hosts than the outside prefix has ports |
| `DetMap.ForwardPlace` | plugins/osvbng_cgnat/osvbng_cgnat.h:656-678 | every host's block lies inside the port range on one of the outside addresses, without wrap or truncation |
| `DetMap.AnswersIff` | plugins/osvbng_cgnat/osvbng_cgnat.h:656-704 | forward, exactly the addresses of the prefix have a block; in reverse, exactly the ports of the range on the outside addresses have a host, as far as the blocks counted from there have hosts |
| `DetMap.RoundTrip` | plugins/osvbng_cgnat/osvbng_cgnat.h:680-704 | every port of a host's block leads back to that host (RFC 7422) |
| `DetMap.BlocksDisjoint` | plugins/osvbng_cgnat/osvbng_cgnat.h:656-678 | no outside address and port belong to two hosts |
| `DetMap.ReverseOwnsIff` | plugins/osvbng_cgnat/osvbng_cgnat.h:680-704 | the reverse answer owns the port exactly when the port lies below the end of the last block |
| `DetMap.LeftoverPortIsMisnamed` | plugins/osvbng_cgnat/osvbng_cgnat.h:680-704 | a /16 shared on 32 addresses as the handlers set it up: the last port of an address is answered with a host whose block is on the next one |
| `DetMap.CoversIff` | plugins/osvbng_cgnat/osvbng_cgnat.h:639-654 | for any base, and every host of the prefix, the 32-bit test succeeds exactly when the prefix does not reach the end of the address space; and for no address outside the prefix |
| `DetMap.TopPrefixIsNeverFound` | plugins/osvbng_cgnat/osvbng_cgnat.h:639-654 | no host of the last /8, shared on 512 addresses as the handlers set it up, is found, although the forward map has a block for each |
| `PuntRing.StepKeepsInv` | plugins/osvbng_punt/osvbng_punt_egress.c:96-285 | each shared access of producer, handler and node keeps the ring and the wakeup chain |
| `PuntRing.NoLostWakeup` | plugins/osvbng_punt/osvbng_punt_egress.c:239-252 | on every interleaving a non-empty ring has a wakeup on its way; entries are consumed in publication order, once, after publication, with at most a ring unread |
| `PuntRing.RestIsEmpty` | plugins/osvbng_punt/osvbng_punt_egress.c:239-252 | the system comes to rest only with everything consumed |
| `PuntRing.ProducerKeeps` | plugins/osvbng_punt/osvbng_punt_shm.c:400-443 | the slot a producer fills is never one still to be read |
| `PuntRing.DrainKeeps` | plugins/osvbng_punt/osvbng_punt_egress.c:99-234 | the entry read is the one published at that position |
| `PuntRing.Drain` | plugins/osvbng_punt/osvbng_punt_egress.c:96-239 | the drain loop is a run of node steps, stops after 256 frames sent or for want of a buffer, and hands frames over in order |
| `TagRewrite.WriteStack` | plugins/osvbng_l2gw/osvbng_l2gw_node.c:261-278 | zero, one or two tags written where they belong and nothing else |
| `TagRewrite.Rewrite` | plugins/osvbng_l2gw/osvbng_l2gw_node.c:213-278 | for all nine combinations of received and sent tags the in-place edit yields addresses, new stack with kept priorities, then the bytes from the payload's ethertype on; wildcard and transparent modes as specified; nothing behind the frame is touched |
| `TagRewrite.RewriteExact` | plugins/osvbng_l2gw/osvbng_l2gw_node.c:236-278 | the exact mode of the same |
| `TagRewrite.ParseIs` | plugins/osvbng_l2gw/osvbng_l2gw_node.c:78-115 | the parse byte by byte: three tag types, 12-bit identifiers, 4 priority bits, the second tag only after a first |
| `TagRewrite.FarEndParsesIff` | plugins/osvbng_l2gw/osvbng_l2gw_node.c:78-115 | the far end parses the tags written, exactly when two were written or the payload does not begin with a tag |
| `TagRewrite.TaggedPayloadIsMisread` | plugins/osvbng_l2gw/osvbng_l2gw_node.c:78-115 | a frame of three tags, two of them replaced by one: the far end parses two |
| `TagRewrite.PeerRestores` | plugins/osvbng_l2gw/osvbng_l2gw_node.c:213-278 | the peer's rewrite brings back identifiers, addresses and payload, priority-tagged frames included, and the priorities a tag carried across; the length comes back exactly when the frame had as many tags as its identifiers ask for |
| `TagRewrite.NullTagIff` | plugins/osvbng_l2gw/osvbng_l2gw_node.c:78-115 | which it has exactly when none of its tags has identifier 0 |
| `TagRewrite.PriorityTagIsLost` | plugins/osvbng_l2gw/osvbng_l2gw_node.c:213-278 | a priority-tagged frame on an untagged circuit comes back without its tag |
| `TagRewrite.WildcardRestores` | plugins/osvbng_l2gw/osvbng_l2gw_node.c:225-236 | a wildcard circuit's far end brings the outer identifier back and never touches inner tags |
| `Circuits.PairFitsIff` | plugins/osvbng_l2gw/osvbng_l2gw.c:200-244 | installing a pair keeps the table one to one exactly when its two keys differ |
| `Circuits.EqualKeysHideAccess` | plugins/osvbng_l2gw/osvbng_l2gw.c:200-244 | a circuit from an identifier to itself is accepted, and no key leads to its access half |
| `Circuits.CircuitRoundTrip` | plugins/osvbng_l2gw/osvbng_l2gw.c:205-232 | the two halves of an exact circuit undo each other for every frame of its access identifiers, tag count apart, and the handoff side finds the peer entry |
| `Circuits.Emission` | plugins/osvbng_l2gw/osvbng_l2gw.c:63-102 | what validated arguments make an entry emit is always a legal tag stack |
| `Circuits.ValidateIs` | plugins/osvbng_l2gw/osvbng_l2gw.c:63-102 | each verdict exactly: both interfaces exist, identifiers fit 12 bits, inner tags stand under outer ones, a wildcard is on both sides, the outer types are 0x88A8, 0x8100 or unset |
| `Circuits.HalvesAre` | plugins/osvbng_l2gw/osvbng_l2gw.c:205-244 | each half receives its own side's tags and sends the other's, in the mode asked for |
| `Circuits.Gateway.Add` | plugins/osvbng_l2gw/osvbng_l2gw.c:146-250 | the exact error code; an agreeing repeat changes nothing and names the circuit there is, a differing one needs a refresh; the installed pair; the table stays one to one exactly when the keys differ |
| `Circuits.Gateway.AgreesIff` | plugins/osvbng_l2gw/osvbng_l2gw.c:189-209 | a repeat of an access key agrees exactly when handoff, mode and both outer types are the same, a type not given being 0x88A8; the enabled flag is not compared |
| `Circuits.Gateway.AddTwice` | plugins/osvbng_l2gw/osvbng_l2gw.c:189-209 | adding again what was added is done, and names the same circuit |
| `Circuits.Gateway.Delete` | plugins/osvbng_l2gw/osvbng_l2gw.c:167-187 | both directions go together |
| `Circuits.Gateway.Lookup` | plugins/osvbng_l2gw/osvbng_l2gw_node.c:337-359 | an exact match wins over a wildcard one, which is tried for frames with an outer identifier; found exactly when some entry matches; a disabled entry switches nothing |
| `Circuits.Gateway.SetState` | plugins/osvbng_l2gw/osvbng_l2gw.c:256-294 | all circuits, both directions of one, or nothing |

## Left out

- VPP plumbing: frames, next indices, prefetching, traces, CLI, API encoding, feature arcs, FIB, DPO and
  adjacency calls, sockets, memory mapping, eventfd system calls.
- Memory ordering weaker than sequential consistency.
- Handoff between workers and owner-thread claims: the packet paths start at the owner.
- Header parsing for flow and host hashes, DSCP tables and ECN rewriting: hashes and tins are inputs.
- AdmitRace.OvershootBound: the chain of a packet is fixed between its admission and its release; a change of
  topology happens under the barrier and is `Hqos`'s.
- The AQM state of a flow inside the tin model: `Cobalt` models it by itself, and the tin takes any outcome.
- The local share of a scheduler inside the dispatch walk: `Drr` models it by itself, and the walk takes any
  answer.
- Idle-credit limits on a subscriber's own shaper, exact per-host counts and hash quality: not claimed.
- DequeueGate.GateRateBound: counts cost from the start of the window, and does not bound how far a worker
  may lag behind its own clock sample.
- Hqos.Hqos.AdmitChain: the four accesses of one admission are one step here; `AdmitRace` interleaves them.
- QosPlugin.Plugin.Dispatch: what a walk sends and drops is released from the chain at its end rather than
  packet by packet, and the answers of the gates and of the local share are inputs of the walk.
- CgnatStore.Store.Create: fragment records, TCP state and ALG flags of a session are not modelled, nor is a
  race of two workers that both miss the same inside key.
- CgnatStore.Store.MappingAdd: the deterministic override of the outside address and ports is `DetMap`'s.
- Translate.Rewrite: packet and byte statistics, TCP state and timeouts are not modelled.
- IcmpError.Revert: statistics and session refresh are not modelled; a quoted header shorter than its fixed
  part is followed but nothing is claimed of it.
- PuntRing.Drain: output frames per interface and truncation of oversized frames are not modelled.
- TagRewrite.Rewrite: the lookup caches of the node and its trigger snooping are not modelled.
- Layout of the shared region, the punt token bucket, and the PPPoE, IPoE, L2TP, SRG and tunnel plugins:
  mostly header building and interface calls.

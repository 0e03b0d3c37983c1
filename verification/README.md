# Verified model of SONiC-VPP plugins

A Dafny model of four parts of this repository, with proofs of what they promise together:

- **Tunnel-termination ACL** (`vppbld/plugins/tunterm_acl`). The redirect store
  (`RedirectStore.dfy`), the API handlers (`ControlPlane.dfy`), their single memory writes
  (`Attachment.dfy`), the bypass node with its one-entry tunnel cache (`TunnelCache.dfy`,
  `BypassNode.dfy`) and the ACL node (`AclNode.dfy`). `AclMachine.dfy` is the small state machine
  a user has in mind; every handler is proved to be one of its steps and the ACL node to do what
  it says. `EndToEnd.dfy` puts both nodes together on packets described by their outer and inner
  headers, whose layouts and type values it writes out itself.
- **Punt via member** (`vppbld/plugins/sonic_ext`). Capturing and rebuilding the wire frame
  (`WireFrame.dfy`), which interfaces run which node (`PuntLifecycle.dfy`), the two redirecting
  nodes (`AggrTapNode.dfy`, `GleanNode.dfy`) and a captured packet's journey through them
  (`PuntJourney.dfy`).
- **IPv4 validation** (`vppbld/plugins/ip_validate`), `Ip4Validate.dfy`.
- **Startup configuration** (`vppcfgd`), merging (`ConfigTree.dfy`) and printing
  (`ConfigText.dfy`, `ConfigMgr.dfy`).

`Basics.dfy` and `Buffers.dfy` hold machine words, the index allocator and packet buffers.
`dafny verify dfyconfig.toml` checks the project.

## Reading the model

State the source updates in place is a class, or an array whose elements are assigned. The
classifier, the FIB, linux-cp, checksum routines, the VTEP table and the throttle hash are
environment: maps, sets or arbitrary functions, so each claim holds whatever they answer. Freed pool
slots and table indices may be handed out again; all that is known of an index handed out is that
it is not in use. A classifier mask has only 0xff and 0x00 bytes and is written with booleans.

What the source demands of its callers, and the model therefore assumes:

- a request whose handler reads or writes the family flag of a table names an index within the
  flags, live or not; runs of the machine attach and replace live tables only;
- creating a table, adding a session to a live table and toggling a feature succeed unless a
  parameter says otherwise;
- a match given to the redirect store has zeros outside the table's mask, as the API handler builds it;
- a buffer has memory for the headers a node reads, whether or not the packet is that long, and
  is no larger than 4 GiB;
- the outer IPv4 header has no options: the bypass node finds UDP through the header length but
  VXLAN, and the new packet position, at a fixed 28 bytes;
- an interface keeps its kind (sub-interface, BVI, bond) while a linux-cp pair names it, and may
  come back under another kind once none does; pairs are one-to-one when a packet is redirected.

Where the code departs from what one would expect, the exact condition is proved: attaching a table
that is not live (`AttachNeedsLiveTable`), adding to one (`RedirectStore.Add`, `Refill`), an inner
frame that starts in the headroom (`TypeInBufferIff`), an ingress index that comes back as an
aggregate (`TapIsQuietIff`), a kind that changes under a live pair (`ReclassifyKeepsCountedIff`), a
tunnel with the all-ones key (`CacheIsTransparentIff`), popping a tag from a frame that is tagged
underneath or was captured in the headroom (`RoundTrip`), a non-empty dictionary merged over text
(`EndsIffFits`), an empty `dev` or `plugin` or text directly under `dev`, which a reader of the startup
text cannot tell (`ReadPrinted`). A replace with no rules clears a table even when its family flag disagrees. The
comment in `vppbld/plugins/sonic_ext/l2_trap_fixup_node.c` that the redirect doubles the tag of a
frame that still has it is at odds with the code, which looks first; the model follows the code.

## Model

| member | source | states |
|---|---|---|
| Basics.FreeIndex | vppbld/plugins/tunterm_acl/tunterm_acl_redirect.c:116-116 | an allocated index is not in use and never exceeds the number in use |
| Redirects.KeyBytesAreInjective | vppbld/plugins/tunterm_acl/tunterm_acl_redirect.c:72-76 | match bytes followed by the table index tell two keys apart exactly when match or table differ |
| Redirects.BindKeepsConsistent | vppbld/plugins/tunterm_acl/tunterm_acl_redirect.c:106-137 | installing an entry, new or updated, keeps pool, hash, sessions and path-list children in bijection and rebinds exactly one match of one table |
| Redirects.ReleaseKeepsConsistent | vppbld/plugins/tunterm_acl/tunterm_acl_redirect.c:139-160 | releasing an entry keeps the four in bijection and unbinds exactly one match of one table |
| Redirects.RestackKeepsConsistent | vppbld/plugins/tunterm_acl/tunterm_acl_redirect.c:47-66 | restacking keeps the four in bijection, moves the session with the entry and moves no other target |
| Redirects.OfTableLists | vppbld/plugins/tunterm_acl/tunterm_acl_redirect.c:186-194 | the collected entries are exactly the live ones of the table, each once |
| Redirects.RedirectStore.Find | vppbld/plugins/tunterm_acl/tunterm_acl_redirect.c:68-83 | finds an entry exactly when the table has a session for the match, and the one with that key |
| Redirects.RedirectStore.Add | vppbld/plugins/tunterm_acl/tunterm_acl_redirect.c:85-138 | binds one match of a live table to the path and frames every other rule; consistency survives exactly when the table is live |
| Redirects.RedirectStore.DelIpr | vppbld/plugins/tunterm_acl/tunterm_acl_redirect.c:139-160 | in a consistent store deleting a live entry cannot fail and removes exactly its rule |
| Redirects.RedirectStore.Del | vppbld/plugins/tunterm_acl/tunterm_acl_redirect.c:162-176 | removes the rule if there is one, else reports it missing and changes nothing |
| Redirects.RedirectStore.Clear | vppbld/plugins/tunterm_acl/tunterm_acl_redirect.c:178-209 | cannot fail, empties exactly one table, frees exactly its pool entries and frames all others |
| Redirects.RedirectStore.DeleteEach | vppbld/plugins/tunterm_acl/tunterm_acl_redirect.c:196-205 | the second loop of clear: deletes the collected entries, none of which another deletion has touched |
| Redirects.RedirectStore.BackWalkNotify | vppbld/plugins/tunterm_acl/tunterm_acl_redirect.c:234-246 | a back-walk moves exactly the entry's own target to what its path resolves to now |
| AclMachine.LastRuleWins | vppbld/plugins/tunterm_acl/tunterm_acl_api.c:115-174 | the bindings left by adding rules in order are those of the last rule for each address and no others |
| AclMachine.PatternsDiffer | vppbld/plugins/tunterm_acl/tunterm_acl_api.c:149-159 | zero padding keeps addresses of one family apart |
| AclMachine.ReachableInv | vppbld/plugins/tunterm_acl/tunterm_acl_api.c:219-368 | in every state any run reaches, including runs that reuse freed indices, each slot names a live table of its family and the feature is on exactly where a slot is set |
| AclMachine.AttachNeedsLiveTable | vppbld/plugins/tunterm_acl/tunterm_acl_api.c:302-317 | the unchecked attach keeps that invariant exactly when the table is live and the flag is its family |
| AclMachine.FamilyIsStable | vppbld/plugins/tunterm_acl/tunterm_acl_api.c:99-104 | as long as a table stays live no run changes its family |
| AclMachine.FamilyMayFlipOnReuse | vppbld/plugins/tunterm_acl/tunterm_acl_api.c:93-96 | a freed index can come back under the other family |
| AclMachine.RulesSurvive | vppbld/plugins/tunterm_acl/tunterm_acl_api.c:106-107 | no run that leaves a table alone adds or drops one of its rules or changes a rule's path |
| AclMachine.BackWalkCatchesUp | vppbld/plugins/tunterm_acl/tunterm_acl_redirect.c:234-246 | while the FIB does not change again, every rule a back-walk has reached since points where its path resolves, whatever else happens |
| AclMachine.RedirectFollowsLastRule | vppbld/plugins/tunterm_acl/tunterm_acl_api.c:99-176 | in every state any run reaches, an address is redirected exactly when a table of its family is attached and the rules that table was last given have it, along the last such rule's path |
| AclMachine.RedirectFollowsFib | vppbld/plugins/tunterm_acl/tunterm_acl_redirect.c:234-246 | after any run a redirected packet goes where the FIB resolves its path now, on the chain of its own family, if the FIB has not changed since the table was created or refilled or the rule back-walked, or since the start |
| AclMachine.SlotIsLastAttach | vppbld/plugins/tunterm_acl/tunterm_acl_api.c:304-364 | after any run the table of an interface and family is the one attached last and not detached since, if there is one |
| AclMachine.TablesStep | vppbld/plugins/tunterm_acl/tunterm_acl_api.c:71-270 | a table exists from its creation until a delete that finds no interface with it; nothing else changes which tables there are or of what family |
| AclMachine.LastFillCounts | vppbld/plugins/tunterm_acl/tunterm_acl_api.c:99-176 | the rules a table was last given are those before the first bad one in the last request that filled it, whatever else happened since |
| Attachment.EveryWriteIsSafe | vppbld/plugins/tunterm_acl/tunterm_acl_api.c:295-364 | after every single write of every run an enabled interface indexes both vectors and has a table; between handlers the enable count is one exactly where a slot is set, else zero |
| Attachment.HandlersAreRuns | vppbld/plugins/tunterm_acl/tunterm_acl_api.c:295-364 | the writes of attach and of detach are such runs |
| Attachment.DetachEnds | vppbld/plugins/tunterm_acl/tunterm_acl_api.c:327-364 | detach clears exactly the slot that names the table, in exactly one family, or is rejected |
| ControlPlane.BuildMask | vppbld/plugins/tunterm_acl/tunterm_acl_api.c:75-79 | the mask covers the address bytes of the family |
| ControlPlane.BuildPattern | vppbld/plugins/tunterm_acl/tunterm_acl_api.c:149-159 | the match vector is the address padded with zeros |
| ControlPlane.Names | vppbld/plugins/tunterm_acl/tunterm_acl_api.c:234-253 | the in-use loop finds the table exactly when some slot names it |
| ControlPlane.TuntermAcl.CreateTable | vppbld/plugins/tunterm_acl/tunterm_acl_api.c:71-97 | a new table is empty, of the given family, under an index not in use; nothing else changes |
| ControlPlane.TuntermAcl.AddRules | vppbld/plugins/tunterm_acl/tunterm_acl_api.c:115-176 | an empty table ends up with exactly the last-wins bindings of the rules before the first bad one, and the error is that rule's; if the table is not live the first good rule breaks the store |
| ControlPlane.StatusIs | vppbld/plugins/tunterm_acl/tunterm_acl_api.c:116-174 | the reply is Ok, the decoding error of the first bad path, or invalid-value-3 for the first address of the wrong family, whichever comes first |
| ControlPlane.TuntermAcl.Refill | vppbld/plugins/tunterm_acl/tunterm_acl_api.c:99-176 | replace: a family mismatch changes nothing, otherwise a live table holds exactly the new bindings and no other table changes; on an index that is not live the store stays consistent exactly when no rule is added |
| ControlPlane.TuntermAcl.AddReplace | vppbld/plugins/tunterm_acl/tunterm_acl_api.c:195-217 | the handler is a Create or Replace step of the machine, or fails and changes nothing; naming an index that is not live breaks consistency exactly when a rule gets as far as the store |
| ControlPlane.TuntermAcl.Delete | vppbld/plugins/tunterm_acl/tunterm_acl_api.c:219-270 | the handler is a Delete step: rejected exactly when in use, and its rules go with the table |
| ControlPlane.TuntermAcl.Attach | vppbld/plugins/tunterm_acl/tunterm_acl_api.c:304-326 | sets the slot and enables the feature whether or not the table is live; an Attach step, with consistency kept, exactly when it is; the writes are the run of module Attachment |
| ControlPlane.TuntermAcl.Detach | vppbld/plugins/tunterm_acl/tunterm_acl_api.c:327-364 | a Detach step whose writes are the run of module Attachment; rejected exactly when the table is not attached |
| ControlPlane.TuntermAcl.InterfaceAddDel | vppbld/plugins/tunterm_acl/tunterm_acl_api.c:272-368 | the handler with its argument checks is an Attach or Detach step, or changes nothing; only attaching an index that is not live breaks consistency |
| ControlPlane.TuntermAcl.BackWalkNotify | vppbld/plugins/tunterm_acl/tunterm_acl_redirect.c:234-246 | a back-walk is a BackWalk step |
| ControlPlane.TuntermAcl.Handle | vppbld/plugins/tunterm_acl/tunterm_acl_api.c:195-368 | every request that keeps consistency is exactly one event of the machine, or none and no change |
| ControlPlane.TuntermAcl.Run | vppbld/plugins/tunterm_acl/tunterm_acl_api.c:195-368 | over any sequence of requests from the start the concrete state shows what the machine says of the events they cause, so what holds of every run of the machine holds of the store |
| ControlPlane.TuntermAcl.AbsInv | vppbld/plugins/tunterm_acl/tunterm_acl_api.c:272-368 | what the user sees of any consistent state satisfies the machine's invariant |
| AclNode.SessionsFollowRules | vppbld/plugins/tunterm_acl/tunterm_acl_redirect.c:60-65 | a table has a session exactly for its rules, and the session carries the rule's stacked DPO |
| AclNode.MaskedAddress | vppbld/plugins/tunterm_acl/tunterm_acl_node.c:176-179 | masking the sixteen bytes at the destination offset gives the padded address |
| AclNode.SlotsInRange | vppbld/plugins/tunterm_acl/tunterm_acl_node.c:139-152 | for an enabled interface both vector reads are in range and yield a live table of the family or none |
| AclNode.TypeInBufferIff | vppbld/plugins/tunterm_acl/tunterm_acl_node.c:107-126 | the inner type is read inside the buffer exactly when the inner frame does not start in the headroom, since the offset is an unsigned word |
| AclNode.HeadroomIsLost | vppbld/plugins/tunterm_acl/tunterm_acl_node.c:107-126 | an inner frame four bytes into the headroom gives the offset 0xFFFFFFFC although all its headers are in memory |
| AclNode.Locate | vppbld/plugins/tunterm_acl/tunterm_acl_node.c:121-156 | the word-sized offsets find the inner family, tag and destination, or the type is read outside the buffer |
| AclNode.Classify | vppbld/plugins/tunterm_acl/tunterm_acl_node.c:119-211 | one packet is redirected, passed and counted as the attached rules say, exactly when its inner frame does not start in the headroom |
| AclNode.TalliesPartition | vppbld/plugins/tunterm_acl/tunterm_acl_node.c:232-244 | the outcomes partition a frame and action-not-supported never occurs |
| AclNode.Node | vppbld/plugins/tunterm_acl/tunterm_acl_node.c:78-247 | every buffer of a frame is judged once, in order, however next-frame space is granted, and the counters are the tallies, up to the first buffer whose inner frame starts in the headroom |
| TunnelCache.FindTunnel | vppbld/plugins/tunterm_acl/tunterm_acl_decap.c:48-106 | computes the cached lookup: hit, exact tunnel, multicast in two stages that leave the cache alone |
| TunnelCache.CachedAgrees | vppbld/plugins/tunterm_acl/tunterm_acl_decap.c:48-106 | through a fresh cache the interface and the stats interface are those of the plain lookup, and the cache stays fresh |
| TunnelCache.CacheIsTransparentIff | vppbld/plugins/tunterm_acl/tunterm_acl_decap.c:194-198 | the 0xff-initialised cache is transparent for every packet exactly when no usable tunnel has the all-ones key |
| BypassNode.Process | vppbld/plugins/tunterm_acl/tunterm_acl_decap.c:463-570 | the straight-line code for one packet: next node, error, position and stats interface, and the cache it leaves |
| BypassNode.WalkIsMap | vppbld/plugins/tunterm_acl/tunterm_acl_decap.c:205-578 | on every frame, threading the cache makes no difference to any packet or to its stats interface |
| BypassNode.Node | vppbld/plugins/tunterm_acl/tunterm_acl_decap.c:167-581 | the two-packet loop followed by the one-packet loop sends every packet once, in order, as if it were alone, for every split of output space |
| EndToEnd.LookupOf | vppbld/plugins/tunterm_acl/tunterm_acl_decap.c:53-65 | the tunnel lookup reads flags, addresses, port and VNI where RFC 791, RFC 768 and RFC 7348 put them |
| EndToEnd.PlainReaches | vppbld/plugins/tunterm_acl/tunterm_acl_decap.c:67-105 | the lookup finds the tunnel of the packet's own addresses, else that of its multicast group's local address, with the interface to count on, and nothing usable if there is neither |
| EndToEnd.SampleKey | vppbld/plugins/tunterm_acl/tunterm_acl_decap.c:61-65 | the key words of a packet from 10.1.0.2 to 10.1.0.1, port 4789, VNI 100 |
| EndToEnd.BypassByFields | vppbld/plugins/tunterm_acl/tunterm_acl_decap.c:480-570 | by header fields: a packet is terminated exactly when it is whole UDP for a local VTEP and of a tunnel; it then goes to tunterm-acl or, if unsound, to be dropped; every other one stays on the arc as it came |
| EndToEnd.InnerOfEncoded | vppbld/plugins/tunterm_acl/tunterm_acl_node.c:121-156 | the offsets find the destination of every inner frame of type 0x0800 or 0x86dd, untagged or behind one 0x8100 tag, and the node reads the type there exactly when the frame does not start in the headroom |
| EndToEnd.OtherTypesPass | vppbld/plugins/tunterm_acl/tunterm_acl_node.c:157-162 | an inner frame of any other type goes to vxlan4-input unchanged |
| EndToEnd.BothNodes | vppbld/plugins/tunterm_acl/tunterm_acl_node.c:121-211 | a packet described by its outer and inner headers whose outer header is at offset -36 or later is redirected exactly when the attached rules have its full inner destination and then starts at the inner IP header; else it goes to vxlan4-input at its VXLAN header; its end and bytes stay; an earlier one is read outside the buffer |
| EndToEnd.SomeBufferCarries | vppbld/plugins/tunterm_acl/tunterm_acl_decap.c:463-570 | every such description has a buffer, at any position from the start of the headroom on |
| EndToEnd.PacketsFollowLastRule | vppbld/plugins/tunterm_acl/tunterm_acl_node.c:121-211 | the same in every state any run of the control plane reaches, in terms of the rules the user last gave and, where the FIB has not changed since the rule was filled or back-walked, of where it sends the path on the chain of the inner family |
| WireFrame.CaptureNode | vppbld/plugins/sonic_ext/capture_node.c:83-128 | every buffer is stamped with its ingress interface and raw outer tag, in place |
| WireFrame.RedirectToIngressTap | vppbld/plugins/sonic_ext/sonic_ext.c:120-192 | succeeds exactly when the ingress port has a tap that is not excluded; a failure leaves the buffer unchanged |
| WireFrame.TravelLeavesTrace | vppbld/plugins/sonic_ext/sonic_ext.c:158-162 | header moves change only the position, and the one pop slides the addresses over the tag |
| WireFrame.SlideThenPush | vppbld/plugins/sonic_ext/sonic_ext.c:175-183 | pushing the tag back undoes the pop, byte for byte |
| WireFrame.PopsTagged | vppbld/plugins/sonic_ext/capture_node.c:104-108 | a frame counts as tagged exactly for the types 0x8100, 0x88a8 and 0x9100 |
| WireFrame.RoundTrip | vppbld/plugins/sonic_ext/sonic_ext.c:158-188 | the redirected packet is the wire frame exactly when no tag was popped, or the frame was captured at a non-negative offset and carries none of the three tag types underneath; its end never moves |
| PuntLifecycle.SonicExt.SetPuntViaMember | vppbld/plugins/sonic_ext/sonic_ext.c:319-363 | the first switch-on walks all pairs and brings every count to the number of pairs that want it; later toggles keep them |
| PuntLifecycle.SonicExt.SetHostXc | vppbld/plugins/sonic_ext/sonic_ext.c:365-384 | the same for host-xc on host taps |
| PuntLifecycle.SonicExt.PairAdd | vppbld/plugins/sonic_ext/sonic_ext.c:404-417 | keeps every interface's counts equal to the number of live pairs that want the feature |
| PuntLifecycle.SonicExt.PairDel | vppbld/plugins/sonic_ext/sonic_ext.c:419-432 | the same when a pair goes |
| PuntLifecycle.NeverOnSub | vppbld/plugins/sonic_ext/sonic_ext.c:60-93 | whatever pairs and toggles do, capture and host-xc are never on for a sub-interface |
| PuntLifecycle.CountsByKind | vppbld/plugins/sonic_ext/sonic_ext.c:282-291 | for one-to-one pairs: the tap of a bond, a sub-interface of a bond or a main interface that is a BVI runs the aggregate-tap redirect once and the interface no capture; any other main interface runs capture once it is armed and its tap no redirect |
| PuntLifecycle.SonicExt.Run | vppbld/plugins/sonic_ext/sonic_ext.c:328-432 | under any interleaving of toggles, pairs and kinds that change where no live pair looks, the counts are zero before the first switch-on and then the number of live pairs that want the feature; aggregate-tap redirect counts live aggregate pairs throughout |
| PuntLifecycle.ReclassifyKeepsCountedIff | vppbld/plugins/sonic_ext/sonic_ext.c:404-432 | the counts survive a change of kinds exactly when every live pair wants the feature where it did |
| PuntLifecycle.KindChangeUnderPair | vppbld/plugins/sonic_ext/sonic_ext.c:419-432 | a port that becomes a bond while it has a pair keeps its capture count: the removal does not take it back and no pair is left |
| PuntLifecycle.WantingWithout | vppbld/plugins/sonic_ext/sonic_ext.c:419-432 | a pair contributes to a count exactly what its removal takes away |
| AggrTapNode.Classify | vppbld/plugins/sonic_ext/aggr_tap_redirect_node.c:127-168 | one packet: redirected only with a cookie and a target, and the cookie is spent even without a target |
| AggrTapNode.Node | vppbld/plugins/sonic_ext/aggr_tap_redirect_node.c:110-210 | buffers are rewritten in place packet by packet and the four counters partition the frame |
| AggrTapNode.AtMostOneReentry | vppbld/plugins/sonic_ext/aggr_tap_redirect_node.c:47-52 | interface-output is re-entered at most once whatever the feature configuration |
| AggrTapNode.TapIsQuietIff | vppbld/plugins/sonic_ext/aggr_tap_redirect_node.c:47-52 | the tap a packet is redirected to runs this node exactly when its ingress port is an aggregate by then |
| AggrTapNode.MemberTapIsQuiet | vppbld/plugins/sonic_ext/aggr_tap_redirect_node.c:47-52 | so it never does when the ingress index is still of the kind it was captured under, however pairs have changed |
| AggrTapNode.ReusedIndexIsNotQuiet | vppbld/plugins/sonic_ext/aggr_tap_redirect_node.c:47-52 | a run in which the index comes back as a bond and the tap does run this node |
| GleanNode.FromNbrNode | vppbld/plugins/sonic_ext/glean_redirect_node.c:171-183 | the search finds the dropping node exactly when it is listed and present |
| GleanNode.Rule | vppbld/plugins/sonic_ext/glean_redirect_node.c:262-332 | one packet's outcome and throttle bit; an adjacency is read only for drops from the listed nodes |
| GleanNode.ThrottledIff | vppbld/plugins/sonic_ext/glean_redirect_node.c:313-321 | in a window a packet is throttled exactly when an earlier eligible packet took its bucket |
| GleanNode.RateBound | vppbld/plugins/sonic_ext/glean_redirect_node.c:313-321 | at most one packet per adjacency and ingress interface is redirected in a window, whatever the hash |
| GleanNode.Throttle.WindowIsBounded | vppbld/plugins/sonic_ext/glean_redirect_node.c:253-332 | the bound holds over all frames of the current window in every state the node reaches |
| GleanNode.WalkSplits | vppbld/plugins/sonic_ext/glean_redirect_node.c:253-262 | the frames of a window compose, so the bound spans frames |
| GleanNode.DropsPartition | vppbld/plugins/sonic_ext/glean_redirect_node.c:353-364 | the seven outcomes partition every frame |
| GleanNode.Throttle.Node | vppbld/plugins/sonic_ext/glean_redirect_node.c:241-368 | a frame is one more stretch of the current window or the first of a new one, with its counters and adjacency reads |
| PuntJourney.TapIsHome | vppbld/plugins/sonic_ext/sonic_ext.c:134-151 | the target is the host tap of the interface itself, or of the port under a sub-interface, unless excluded |
| PuntJourney.AggrTapSendsHome | vppbld/plugins/sonic_ext/aggr_tap_redirect_node.c:127-168 | a frame captured on an interface and travelled leaves for the tap of that interface's port, whatever its interfaces have become since, with its wire bytes exactly when it comes back whole; off, untapped or already leaving there, it goes on |
| PuntJourney.GleanSendsHome | vppbld/plugins/sonic_ext/glean_redirect_node.c:262-332 | the glean node sends a captured frame home exactly when a listed node dropped it, its adjacency is glean or arp out of an existing interface, the token of adjacency and ingress interface is free and the port has a tap; a packet that gets that far takes the token |
| PuntJourney.RedirectedAtMostOnce | vppbld/plugins/sonic_ext/sonic_ext.c:153-156 | over any visits to the two nodes a captured packet is redirected at most once |
| Ip4Validate.Shifts | vppbld/plugins/ip_validate/ip4_validate_node.c:91-96 | the shifts read the leading bytes of the address |
| Ip4Validate.ValidateX1 | vppbld/plugins/ip_validate/ip4_validate_node.c:82-167 | the error and next node are those of the prefix table over dotted-quad bytes |
| Ip4Validate.ErrorIs | vppbld/plugins/ip_validate/ip4_validate_node.c:94-166 | the counter each packet falls under, by its MAC and IPv4 addresses |
| Ip4Validate.DroppedIff | vppbld/plugins/ip_validate/ip4_validate_node.c:94-166 | exactly which packets are dropped, by their MAC and IPv4 addresses |
| Ip4Validate.HistogramIsTotal | vppbld/plugins/ip_validate/ip4_validate_node.c:258-263 | the histogram sums to the frame size |
| Ip4Validate.Node | vppbld/plugins/ip_validate/ip4_validate_node.c:185-265 | unrolled by four and then one by one, the next array and the histogram are those of a packet-by-packet map |
| ConfigTree.DeepUpdate | platform/mkrules/src/sonic-vppcfgd/vppcfgd/config.py:34-44 | the loop computes the recursive merge, with the partial state a TypeError leaves |
| ConfigTree.MergeLaw | platform/mkrules/src/sonic-vppcfgd/vppcfgd/config.py:34-44 | after an update that ends, every path holds what the update decides, else what it held |
| ConfigTree.LastUpdateWins | platform/mkrules/src/sonic-vppcfgd/vppcfgd/config.py:46-50 | over any run of updates on the shared template each path holds what the last update that decides it says, else the template's |
| ConfigTree.MergeIsIdempotent | platform/mkrules/src/sonic-vppcfgd/vppcfgd/config.py:34-44 | repeating an update changes nothing, not even the order |
| ConfigTree.KeysOfSet | platform/mkrules/src/sonic-vppcfgd/vppcfgd/config.py:42-44 | assigning to a key that is there keeps the order of the keys; a new key goes last |
| ConfigTree.MergeKeepsOrder | platform/mkrules/src/sonic-vppcfgd/vppcfgd/config.py:34-44 | after an update the keys are the old ones in their order, then the new ones in the order of the update |
| ConfigTree.MergeGoesBelow | platform/mkrules/src/sonic-vppcfgd/vppcfgd/config.py:39-40 | a dictionary that meets a dictionary is merged into it |
| ConfigTree.RaisedLeaves | platform/mkrules/src/sonic-vppcfgd/vppcfgd/config.py:34-44 | what a TypeError leaves: the entries before the offending one merged, and that one untouched over text or merged up to a TypeError below |
| ConfigTree.EndsIffFits | platform/mkrules/src/sonic-vppcfgd/vppcfgd/config.py:37-42 | an update ends without a TypeError exactly when nowhere a non-empty dictionary meets text |
| ConfigText.ReadPrinted | platform/mkrules/src/sonic-vppcfgd/vppcfgd/config.py:57-90 | a brace-matching reader of the printed lines of any tree of words recovers exactly what they show, and that is the tree without vports exactly when every dev and plugin group has an entry and dev holds only dictionaries |
| ConfigText.ShownIsStrippedIff | platform/mkrules/src/sonic-vppcfgd/vppcfgd/config.py:57-90 | dropping empty groups and setting text beside dev changes nothing exactly under that condition, for every tree |
| ConfigText.PrintedIsNested | platform/mkrules/src/sonic-vppcfgd/vppcfgd/config.py:57-90 | braces balance at every prefix and indentation is nesting depth, for every tree of words |
| ConfigText.PrintingForgets | platform/mkrules/src/sonic-vppcfgd/vppcfgd/config.py:60-65 | trees no reader could tell apart: text directly under dev, an empty dev or plugin, vports |
| ConfigMgr.SampleIsPrinted | platform/mkrules/src/sonic-vppcfgd/vppcfgd/config.py:57-90 | the lines of a small configuration with each kind of entry |
| ConfigMgr.SampleReadsBack | platform/mkrules/src/sonic-vppcfgd/vppcfgd/config.py:57-90 | that configuration meets every condition of the round trip and reads back |
| ConfigMgr.LinesOfText | platform/mkrules/src/sonic-vppcfgd/vppcfgd/config.py:67-74 | splitting the characters into lines and words inverts joining them, empty words after the first included |
| ConfigMgr.TextRoundTrip | platform/mkrules/src/sonic-vppcfgd/vppcfgd/config.py:52-90 | reading the characters of the startup text recovers what it shows, which is the tree without vports exactly when every group shows |
| ConfigMgr.Manager.GenPluginsCfg | platform/mkrules/src/sonic-vppcfgd/vppcfgd/config.py:88-90 | appends exactly the text of the plugin lines |
| ConfigMgr.Manager.GenDpdkDevCfg | platform/mkrules/src/sonic-vppcfgd/vppcfgd/config.py:76-86 | appends exactly the text of the device blocks |
| ConfigMgr.Manager.GenVppConf | platform/mkrules/src/sonic-vppcfgd/vppcfgd/config.py:57-74 | appends exactly the text of the dictionary |
| ConfigMgr.Manager.RenderVppConfig | platform/mkrules/src/sonic-vppcfgd/vppcfgd/config.py:52-55 | the startup text can be read back to the whole tree exactly when every group shows |

## Left out

- `tunterm_acl_vxlan6_find_tunnel` and the IPv6 branches of the bypass loop: no IPv6 bypass node is registered.
- Deleting an interface that still has a table attached: the handlers never see it.
- A table whose creation or session the classifier refuses for lack of memory, beyond the return code of creation.
- The address cache of the VTEP check: the check is a predicate of FIB index and address.
- vlib's speculative enqueue: placing a packet is appending its next node; how much output space is granted is arbitrary.
- Packet tracing, CLI, API message layout and reply macros.
- `host_xc_node.c` sends a host tap's packet out of its port, `l2_trap_fixup_node.c` replaces a trapped packet's receiving sub-interface by its port, `ip2me_node.c` lets packets for a local address past an ingress ACL: each looks up one table and sets one buffer field or next node, keeps no state between packets and takes no part in the cookie, count or rule properties above.
- `ip6_validate_node.c` drops IPv6 packets with bad addresses by the same loop as the IPv4 node, over other prefixes.
- Counts after an interface has changed kind under a live pair: the runs end where that happens.
- A request that names an index past the family flags, other than a replace with no rules, which reads no flag: the handler reads or writes memory that is not the vector's.
- ConfigMgr.Manager.GenVppConf: a dictionary directly under `plugin` raises a TypeError; the partial text it leaves is not modelled.
- What the ACL node does with a packet whose type it reads outside the buffer.
- `vpp_vports_config`, `vpp_dpdk_config`, `vpp_env_config`, `disable_dpdk_cfg` and `commit`: single assignments and file output; commits end the runs of updates that are modelled.
- ConfigTree.DeepUpdate: dictionaries are values, so aliasing between an update and the template is not captured; updates are decoded afresh for each call.
- Configuration values other than text and dictionaries.
- vppcfgd's database subscription, templates and process control; build files, scripts and test drivers.

# Fireproxy: a verified model of its hard core

The repository is a companion server and on-box agent for a Firewalla router. This project models the parts of it
whose correctness depends on interleavings, graph shapes or bookkeeping over a whole history, and proves what each of
them is for.

Four groups are covered.

- **Pairing and caches** (`Pairing`, `SingleFlight`, `HostPolicies`). Pair, Unpair, init fetches, hydration and
  restarts race around one mutex, a generation counter, a vault, three caches and two persisted blobs. Every
  lock-held section is one atomic step on a `Service` object; slow calls are tasks that captured what they read. Over
  every interleaving, everything cached or persisted is a view of one and the same init response, fetched with the
  credentials now in the vault. The hand-written singleflight and the optimistic host-policy overlay belong here too.
- **Topology** (`ParentsFirst`, `Topology`, `TreeDepth`, `TreeSort`, `UnifiMerge`, `Descent`, `TplinkHangOff`, `StpAudit`,
  `MacText`, `NameSync`). A tree is described by its bag of parent links, and every operation by its exact effect on
  that bag, so "each node once, under its uplink" is a theorem about the whole merge. The parents-first order, the
  search for the port behind which a switch hangs, the spanning-tree audit and the name sync are each proved against
  an independent description of the right answer.
- **Agent protocol** (`AgentHub`, `AgentEvents`, `LogBatches`). Single-slot waiters, ack-then-drop delivery and capped
  batches, as state machines and loops with their invariants.
- **Limiters and accumulators** (`RateLimit`, `Sessions`, `Sumflow`, `Speedtest`, `TimeSeries`). Each prunes, batches
  or indexes for speed, and each is proved to answer as a simple full-history or per-item definition does.

`Text`, `Sorting` and `Inventory` hold what the others share.

What the source updates step by step is a method or a class here, with an `ensures` that equates its result or its new
state with a specification function; the lemmas are about those functions.

Some properties hold under a condition, and the condition is part of the result:

- `hangOff` never returns on some cyclic uplinks. With distinct MACs that is so if and only if uplinks lead from the best
  switch back to it through switches that are each the only child of their uplink port, which is the first port of the
  uplink that saw the MAC. `CycleCanSpin` is a concrete catalog.
- Caches and blobs match the vault in every run of whole lock-held sections. A process that dies inside one leaves a
  consistent store if and only if no blob is left of other credentials than the vault's; inside a fetch the two blobs may
  then be of two responses.
- A joiner of the singleflight gets the leader's error, except that it gets nil when the leader's function panicked.
- Closing a superseded agent connection never marks the live one offline. It leaves every request alone if and only if
  the waiter slot is empty, and otherwise fails the request that waits there.
- Overlapping event flushes can lose an event. A run loses none if and only if no ack counts past the lines that
  deliveries have reached, which holds whenever flushes do not overlap.
- `attachTree` keeps MACs distinct if and only if the new uplink is not the node itself or something below it, and a
  merge of new distinct UniFi MACs keeps them distinct if and only if the uplinks are acyclic.
- A session used at gaps of at most idle - interval can count on its next window if and only if the stored deadline and
  every deadline about to be written over it reach the end of that window. That is so whenever none of its requests
  passes the touch gate while another one's write is still to come; otherwise the session can be lost.
- With clock readings out of order by up to a skew, the rate limit holds for windows that are shorter by the skew.
- For name sync it is assumed that no two hosts have the same MAC and no two users the same id; users without an id may
  be many. What came out ok is then gone from the next diff, and everything else is still there.
- The optimistic overlay equals what the box will report if and only if the sent note is trimmed and the sent tags are
  trimmed and not blank.
- When every log line of a run is oversized and only one batch is allowed, the number of dropped lines is not reported.
- `timedHits` needs no lower bound on the clock: rounding toward zero always yields enough slots.

`dafny verify dfyconfig.toml` checks the whole project.

## Model

| member | source | states |
|---|---|---|
| Pairing.CachesMatchVault | server/internal/fwapp/init_cache.go:280-346 | In every interleaving of Pair, Unpair, fetches, hydration, patches and restarts: with no usable credentials in the vault all three caches and both blobs are empty, and otherwise all five hold views of one single response, fetched with the credentials in the vault |
| Pairing.RunKeepsInv | server/internal/fwapp/service.go:122-189 | The step invariant behind it, for any start: one source everywhere, no task from a future generation, and a fetch of the current generation holds the vault's credentials |
| Pairing.InFlightSeesCommits | server/internal/fwapp/service.go:126-163 | A call still in flight finds the generation grown by exactly the number of Pair and Unpair commits since it started |
| Pairing.StaleCallIsInert | server/internal/fwapp/init_cache.go:319-345 | A Pair, LAN check or fetch that began before another Pair or Unpair committed changes no state at all when it ends |
| Pairing.FreshFetchFills | server/internal/fwapp/init_cache.go:319-345 | Its converse, over runs: a fetch with no Pair or Unpair commit since it began fills all three caches and both blobs with that one response, unpatched and at that time, under the credentials it was fetched with, and the state is "lan-ok" |
| Pairing.FreshPairCommits | server/internal/fwapp/service.go:145-163 | A pairing that was not overtaken stores its credentials, leaves no cache and no blob, clears the error and starts the LAN check of the next generation |
| Pairing.OutcomesShow | server/internal/fwapp/service.go:134-188 | What a failed join, a LAN check and a failed fetch of the current generation change: the status, and how |
| Pairing.UnpairSticks | server/internal/fwapp/service.go:693-714 | After an Unpair the vault, caches and blobs stay empty, whatever was in flight, until a new Pair starts |
| Pairing.UnpairLeavesNothing | server/internal/fwapp/service.go:693-714 | Right after an Unpair the vault, the caches and the blobs are empty, the status is reset and every call in flight is stale |
| Pairing.RestartShowsStored | server/internal/fwapp/obs_persist.go:44-77 | After a restart a paired box shows its stored rules, and its stored observatory unless that is more than 24 hours old, when it is deleted |
| Pairing.DyingWhileClearingIsSafeIff | server/internal/fwapp/service.go:697-708 | A process that dies after it changed the vault and before it cleared both blobs leaves a consistent store if and only if every blob left was fetched with the credentials now in the vault; after an Unpair, if none is left |
| Pairing.DyingInCommitIsSafeIff | server/internal/fwapp/service.go:150-160 | In a Pair, before anything is cleared: if and only if no blob is stored or the stored ones were fetched with these very credentials |
| Pairing.DyingInFetchIsSafeIff | server/internal/fwapp/init_cache.go:340-345 | Dying between the two blob writes of a fetch leaves only blobs of the vault's credentials, and of one response if and only if no older observatory blob was stored |
| Pairing.DeathShowsForeignRules | server/internal/fwapp/service.go:150-160 | A run after which a death in a second pairing's commit shows the first box's rules under the second one's credentials |
| Pairing.Service.constructor | server/internal/fwapp/service.go:50-60 | A new process starts unpaired, with empty caches, over whatever the store holds |
| Pairing.Service.CommitPair | server/internal/fwapp/service.go:145-163 | Saves the credentials, bumps the generation and empties caches and blobs in one step, or does nothing and reports being overtaken |
| Pairing.Service.FailPair | server/internal/fwapp/service.go:134-144 | A failed cloud join is recorded only by the current generation |
| Pairing.Service.FinishPing | server/internal/fwapp/service.go:165-188 | The LAN check's outcome is recorded only by the generation it belongs to |
| Pairing.Service.Unpair | server/internal/fwapp/service.go:693-714 | Wipes vault, caches and blobs, resets the status and bumps the generation |
| Pairing.Service.ClearAll | server/internal/fwapp/service.go:156-160 | Empties the three caches and both blobs and nothing else |
| Pairing.Service.BeginFetch | server/internal/fwapp/init_cache.go:284-293 | Captures generation and credentials together, exactly when the vault is usable |
| Pairing.Service.FailFetch | server/internal/fwapp/init_cache.go:295-307 | A failed fetch touches the status only if the pairing has not moved on |
| Pairing.Service.ApplyInit | server/internal/fwapp/init_cache.go:321-345 | A reply of the current generation fills all three caches and both blobs with one response, each field stated; one that was overtaken leaves the state unchanged |
| Pairing.Service.HydrateRulesCache | server/internal/fwapp/rules_persist.go:37-66 | Loads the rules blob only under a usable vault; a zero time becomes now |
| Pairing.Service.HydrateObservatoryCache | server/internal/fwapp/obs_persist.go:44-77 | Loads a fresh observatory blob and deletes one that is too old |
| Pairing.Service.OverlayHostPolicy | server/internal/fwapp/rules_cache.go:90-103 | Patches the cached rules and keeps their origin; an empty cache stays empty |
| SingleFlight.OneFlightPerKey | server/internal/fwapp/init_cache.go:192-218 | In every run at most one caller per key is inside the function or not yet out of the map |
| SingleFlight.JoinerGetsLeaderError | server/internal/fwapp/init_cache.go:197-217 | A joiner has returned only after the leader's function ended, with the leader's error, or nil if that function panicked |
| SingleFlight.PanicGivesNil | server/internal/fwapp/init_cache.go:207-217 | A run in which a joiner of a panicking leader returns nil |
| SingleFlight.OutcomeIsFinal | server/internal/fwapp/init_cache.go:208-217 | What a flight's joiners read never changes once its function has ended |
| SingleFlight.WaiterIsServed | server/internal/fwapp/init_cache.go:197-214 | A waiting caller's flight is done or its leader is still on the way |
| SingleFlight.LateArrivalJoins | server/internal/fwapp/init_cache.go:197-214 | A caller that arrives between `wg.Done` and the map delete joins the ended flight and starts none |
| SingleFlight.FlightCompletes | server/internal/fwapp/init_cache.go:192-218 | A caller that finds no live flight returns as its function ended and leaves the map and every older flight as they were |
| SingleFlight.RunKeepsInv | server/internal/fwapp/init_cache.go:181-218 | Flights, leaders and the live map stay consistent over every run |
| SingleFlight.InitFlight.Start | server/internal/fwapp/init_cache.go:193-205 | The lock-held entry joins a live flight or registers a new one, as the step does |
| SingleFlight.InitFlight.SetResult | server/internal/fwapp/init_cache.go:216-217 | Stores the function's error in the flight that joiners read |
| SingleFlight.InitFlight.Done | server/internal/fwapp/init_cache.go:209-214 | Marks the flight done without touching the map |
| SingleFlight.InitFlight.Remove | server/internal/fwapp/init_cache.go:211-213 | Takes exactly its own key out of the map |
| HostPolicies.OverlayCommutesWithWire | server/internal/fwapp/host_policy.go:66-99 | For every stored policy and patch, decoding what the box stores after the sent value equals the overlay on the decoded policy if and only if note and tags are clean |
| HostPolicies.CleanTagsUnchanged | server/internal/fwapp/rules_parse.go:631-642 | The decoder keeps a tag list as it is if and only if every tag is trimmed and not blank |
| HostPolicies.DecodedMeans | server/internal/fwapp/rules_parse.go:608-643 | Each field of a decoded policy: monitored unless the box says no, emergency when acl is off, the rest only when the box says so, note and tags trimmed, and exactly the tags that are not blank |
| HostPolicies.LookupAfterPatch | server/internal/fwapp/rules_cache.go:90-103 | After a patch the lookup of that MAC, known or not, is the patched previous lookup, and every other lookup is unchanged |
| HostPolicies.PatchedAt | server/internal/fwapp/rules_cache.go:96-102 | Only the first entry of the MAC changes; without one, an entry is appended |
| HostPolicies.BuildValue | server/internal/fwapp/host_policy.go:63-99 | The sent value key by key, refused exactly for the empty patch; monitoring and emergency switch each other off |
| HostPolicies.PatchedMeans | server/internal/fwapp/host_policy.go:116-145 | Field by field: what is sent shows, the rest stays, and monitoring and emergency end each other |
| HostPolicies.ApplyPatch | server/internal/fwapp/host_policy.go:116-145 | The overlay's effect on each field |
| HostPolicies.ApplyRaw | server/internal/fwapp/rules_parse.go:608-643 | The decoder's effect on a fresh policy |
| HostPolicies.DecodeTags | server/internal/fwapp/rules_parse.go:631-642 | The loop trims tags and drops blank ones, in order |
| HostPolicies.RulesCache.PatchHost | server/internal/fwapp/rules_cache.go:90-103 | In-place patch or append on a filled cache; nothing on an empty one |
| HostPolicies.RulesCache.Set | server/internal/fwapp/rules_cache.go:17-23 | Holds the snapshot and its time |
| HostPolicies.RulesCache.Clear | server/internal/fwapp/rules_cache.go:36-42 | Holds nothing |
| HostPolicies.RulesCache.Find | server/internal/fwapp/host_policy.go:41-55 | First cached entry of the MAC, or the default policy with monitoring on |
| ParentsFirst.ParentsFirst | server/internal/unifi/merge.go:50-81 | The result is a run of rounds, each of every switch whose uplink is no longer pending, by MAC |
| ParentsFirst.RoundsUnique | server/internal/unifi/merge.go:56-79 | Every map iteration order gives the same list |
| ParentsFirst.RoundsListEveryMac | server/internal/unifi/merge.go:50-81 | Each distinct MAC is listed exactly once, on every parent graph |
| ParentsFirst.RoundsOrder | server/internal/unifi/merge.go:56-79 | First exactly the switches whose uplink chain ends, each after its uplink; then exactly the others, sorted by MAC |
| ParentsFirst.RoundsByLevel | server/internal/unifi/merge.go:56-79 | And how the first part is ordered: by the number of uplinks that are pending above a switch, and by MAC where that is the same |
| ParentsFirst.GroundedIffNoCycle | server/internal/unifi/merge.go:67-73 | An uplink chain fails to end exactly when it reaches a cycle, so the trailing block is the switches that reach one |
| ParentsFirst.ListsUnique | server/internal/unifi/merge.go:83-87 | There is one MAC-sorted list of a set of pending switches |
| ParentsFirst.FillPending | server/internal/unifi/merge.go:51-54 | The pending map of the source's loop |
| ParentsFirst.PendingIsLast | server/internal/unifi/merge.go:51-54 | The record kept for a MAC is the last one that has it |
| ParentsFirst.Gather | server/internal/unifi/merge.go:57-70 | Collects exactly the chosen pending switches, once each, in any order |
| Topology.GraftLinks | server/internal/unifi/merge.go:222-235 | Grafting adds exactly the child's links under the wanted MAC and fails exactly when that MAC is absent |
| Topology.GraftInPlace | server/internal/unifi/merge.go:222-235 | The sibling loop computes the graft that the link law is about |
| Topology.DetachLinks | server/internal/unifi/merge.go:200-213 | Detaching takes away exactly one node with its subtree, and nothing when the MAC is absent |
| Topology.DetachInPlace | server/internal/unifi/merge.go:200-213 | The sibling loop computes the detachment that the link law is about |
| Topology.AppendUnderBoxLinks | server/internal/unifi/merge.go:243-251 | Exactly one node with its links goes under the first top-level box, or to the top level |
| Topology.BoxParentIsFirst | server/internal/unifi/merge.go:243-251 | The box is the first top-level node of that type, if there is any |
| Topology.AttachLinks | server/internal/unifi/merge.go:177-198 | On any tree: the MAC's old link goes, its subtree stays with it, the new link comes, and a missing uplink gets one placeholder under the box |
| Topology.AttachKeepsDistinct | server/internal/unifi/merge.go:177-241 | Distinct MACs stay distinct if and only if the uplink is not the node itself or below it |
| TreeSort.NodeOrder | server/internal/unifi/merge.go:100-134 | The sibling comparison is a strict weak order |
| TreeSort.BoxComesFirst | server/internal/unifi/merge.go:100-106 | A box comes before everything else |
| TreeSort.SiblingsByPort | server/internal/unifi/merge.go:107-134 | Numbered ports by number, then named ones by name without regard to case, then blank ones |
| TreeSort.SiblingsByName | server/internal/unifi/merge.go:107-123 | On the same port by name without regard to case, then by MAC |
| TreeSort.SortTreeLinks | server/internal/unifi/merge.go:89-98 | Sorting changes no parent link at any depth |
| TreeSort.SortTreeSorts | server/internal/unifi/merge.go:89-98 | Siblings are sorted at every level |
| TreeSort.SortInPlace | server/internal/unifi/merge.go:89-98 | The recursive loop computes that sorted tree |
| UnifiMerge.Merge | server/internal/unifi/merge.go:12-48 | For any input: catalog switches first, cleaned of the UniFi MACs, then the UniFi switches, each with the uplink that the snapshot names and knows, or else behind the first catalog port that saw it; the tree sorted, with no node but the UniFi ones listing a UniFi MAC as client. With distinct UniFi MACs each hangs under its uplink; if they are also new, MACs stay distinct exactly when the uplinks are acyclic, and then the tree is exact and shows each switch's own fields. Nothing changes without UniFi switches |
| UnifiMerge.DistinctIffAcyclic | server/internal/unifi/merge.go:12-48 | For distinct UniFi MACs new to a tree with distinct MACs, the merged tree has distinct MACs if and only if the uplinks are acyclic |
| UnifiMerge.UplinksHold | server/internal/unifi/merge.go:43-45 | For distinct UniFi MACs and any tree and uplinks, every UniFi node ends up under its uplink |
| UnifiMerge.NoStrayClients | server/internal/unifi/merge.go:39-46 | For any UniFi switches, no node of the merged tree but their own lists one of their MACs as a client |
| UnifiMerge.MergedTreeIsExact | server/internal/unifi/merge.go:12-48 | Every old link is there once, every UniFi node once under its uplink or the box, one placeholder per uplink known nowhere, and no other link |
| UnifiMerge.ExactTreeShows | server/internal/unifi/merge.go:215-241 | What the nodes of an exact tree say: each UniFi node its MAC, name, address, port and clients, marked as access point or switch, and an invented uplink nothing but its MAC |
| UnifiMerge.AttachAllLinks | server/internal/unifi/merge.go:43-45 | The exact links after attaching a whole parents-first list |
| UnifiMerge.OrderIsAttachable | server/internal/unifi/merge.go:43-45 | The parents-first order of acyclic new switches never makes attaching move or duplicate a node |
| UnifiMerge.StripAllCleans | server/internal/unifi/merge.go:153-175 | Stripping MAC after MAC filters every client list in the tree by all of them |
| UnifiMerge.NoAdoptedClients | server/internal/unifi/merge.go:153-175 | After the strips no catalog switch, port or tree node lists a UniFi MAC as client |
| UnifiMerge.StripInPlace | server/internal/unifi/merge.go:165-175 | The recursion over the tree drops one MAC from every client list |
| UnifiMerge.StripEverywhere | server/internal/unifi/merge.go:39-41 | The loop over all added switches cleans switches, ports and tree of all their MACs |
| UnifiMerge.DropMac | server/internal/unifi/merge.go:253-264 | Removes every occurrence of a MAC and keeps the order of the rest |
| UnifiMerge.HangOffFirewalla | server/internal/unifi/merge.go:136-151 | The first catalog port that saw the switch becomes its uplink; otherwise it stays as it is |
| UnifiMerge.ResolveAll | server/internal/unifi/merge.go:24-37 | Node by node: with an uplink id whose MAC is known and not empty, that MAC is the uplink; with another uplink id the node is unchanged; without one it hangs behind the first catalog port that saw it, or is unchanged |
| UnifiMerge.ResolveFits | server/internal/unifi/merge.go:24-37 | The same of one node, for every choice of ids that the map order may yield |
| UnifiMerge.HangOffIsFirst | server/internal/unifi/merge.go:136-151 | The uplink is the first switch with a port that saw the MAC, and its first such port, with none earlier |
| UnifiMerge.Invert | server/internal/unifi/merge.go:19-22 | A device id per known MAC |
| UnifiMerge.AttachTree | server/internal/unifi/merge.go:177-198 | The source's branches compute the attachment the link law is about |
| Descent.ForeverIsExact | server/internal/tplink/merge.go:88-102 | Cutting the descent off at a repeated station reports "never ends" exactly when the uncut loop runs for ever |
| Descent.ForeverMeansReturn | server/internal/tplink/merge.go:88-102 | A loop whose turns are one-to-one runs for ever if and only if it comes back to where it started |
| TplinkHangOff.HangOff | server/internal/tplink/merge.go:45-129 | The place is reached from the first of the best ports that saw the MAC, or is the best UniFi node, or there is none; best is the greatest depth, among those a UniFi switch, among those the least MAC; with distinct MACs the source never returns if and only if the catalog has a ring at the best switch; one level below the best port at most when its uplink chain ends |
| TplinkHangOff.SpinsIffRing | server/internal/tplink/merge.go:84-106 | With distinct MACs the descent runs for ever if and only if uplinks lead from the best switch back to it through switches that are each the only child of their uplink port, which is the first port of the uplink that saw the MAC |
| TplinkHangOff.DescentIsOneToOne | server/internal/tplink/merge.go:88-102 | With distinct MACs no two ports lead the descent to the same port |
| TplinkHangOff.RightPlaceUnique | server/internal/tplink/merge.go:45-129 | On every catalog there is one right place, so the contract of the search fixes its result |
| TplinkHangOff.DescentMovesOneLevel | server/internal/tplink/merge.go:84-106 | With distinct MACs and an ending chain the loop stops at the best port or at its only child switch, which never saw the MAC |
| TplinkHangOff.TurnMeans | server/internal/tplink/merge.go:84-106 | One turn of the loop with a single child: on to the child's first port that saw the MAC, or a stop at a child that never saw it |
| TplinkHangOff.ChildIsDeeper | server/internal/tplink/merge.go:164-181 | A switch is exactly one deeper than an uplink whose chain ends |
| TplinkHangOff.ParentDepth | server/internal/tplink/merge.go:164-181 | The depth loop ends on every parent graph, cyclic or not |
| TplinkHangOff.DepthOfChain | server/internal/tplink/merge.go:164-181 | On a chain that ends, the depth is the number of uplinks, one outside the catalog included |
| TplinkHangOff.DepthOfCycle | server/internal/tplink/merge.go:164-181 | On a chain that runs into a cycle, the depth is the number of switches before one comes a second time |
| TplinkHangOff.PickBest | server/internal/tplink/merge.go:53-63 | Of all hits none is deeper, none as deep is on a UniFi switch when the pick is not, none of those has a lesser MAC, and every earlier hit falls short of it in this |
| TplinkHangOff.TopsMeansNotBetter | server/internal/tplink/merge.go:53-63 | The source's comparison is false of a hit exactly when the pick tops it in depth, then UniFi, then MAC |
| TplinkHangOff.PortHits | server/internal/tplink/merge.go:64-83 | Exactly the ports of other switches that saw the MAC, with their depth, in catalog order, a switch's first such port first |
| TplinkHangOff.PickedIsBest | server/internal/tplink/merge.go:64-86 | The hit picked is on the first port that saw the MAC of the first switch whose hits are best |
| TplinkHangOff.NodeHits | server/internal/tplink/merge.go:107-123 | Exactly the switches that list the MAC without a port |
| TplinkHangOff.ListChildren | server/internal/tplink/merge.go:183-195 | Exactly the switches hanging off that port, in catalog order |
| Inventory.FindPort | server/internal/tplink/merge.go:197-206 | The first port that saw the MAC, if any did |
| Inventory.PortOfIsFirst | server/internal/tplink/merge.go:197-206 | That port saw the MAC and no earlier one did, and there is none exactly when no port saw it |
| TplinkHangOff.CycleCanSpin | server/internal/tplink/merge.go:88-102 | A catalog with a cyclic uplink on which the only right answer is that the loop never returns |
| TplinkHangOff.Adopt | server/internal/tplink/merge.go:131-162 | The switch takes over the MACs its uplink port saw, once each in order of first occurrence and without its own, and nothing without such a port |
| TplinkHangOff.UplinkPortIsNamed | server/internal/tplink/merge.go:131-150 | The uplink port is the first port of that name on the first switch with the uplink's MAC, if the switch names both |
| StpAudit.Findings | server/internal/unifi/stp.go:102-259 | A row is reported if and only if it is due under one of the four rules: one for each audited switch with STP off, and every other row once; in the order off, wrong root, priority, blocking, then name without regard to case, then MAC |
| StpAudit.WrongRootRows | server/internal/unifi/stp.go:163-186 | One row exactly for each component whose elected bridge is not its topology root |
| StpAudit.PriorityRows | server/internal/unifi/stp.go:188-211 | Exactly the running switches with a lower priority value than their running uplink, one row each |
| StpAudit.BlockingRows | server/internal/unifi/stp.go:213-236 | Exactly the running switches whose own uplink port is blocked, one row each |
| StpAudit.BlockedMeans | server/internal/unifi/stp.go:213-236 | An uplink port counts as blocked when the first live port of that id is blocking or broken |
| StpAudit.OffRows | server/internal/unifi/stp.go:127-137 | One row for each audited switch that reports STP switched off, in catalog order |
| StpAudit.StpOffMeans | server/internal/unifi/stp.go:76-83 | STP is off for exactly four words, the empty one included, in any case and spacing |
| StpAudit.AuditedMeans | server/internal/unifi/stp.go:106-118 | Audited are exactly the UniFi switches with a MAC that are no access points |
| StpAudit.ActiveMeans | server/internal/unifi/stp.go:106-137 | Running STP are the audited switches whose reported version does not mean off |
| StpAudit.GroupElectors | server/internal/unifi/stp.go:163-174 | Groups exactly the running switches by their topology root, none empty |
| StpAudit.Elect | server/internal/unifi/stp.go:175-181 | The elected bridge outranks every other, in the bridge-identifier order of clause 17.5 of IEEE 802.1D-2004 |
| StpAudit.OutranksMeans | server/internal/unifi/stp.go:175-181 | A lower priority outranks, a lower MAC decides between equal ones, and of two bridges exactly one outranks |
| StpAudit.FindRoot | server/internal/unifi/stp.go:147-161 | The walk to the topology root ends on every parent graph |
| StpAudit.RootOfParent | server/internal/unifi/stp.go:139-161 | On an ending chain a switch shares its uplink's component |
| StpAudit.RootOfCycle | server/internal/unifi/stp.go:147-161 | A component whose uplinks run into a cycle is named after the first switch that comes a second time |
| StpAudit.NoPriorityRowMeansRootIsLowest | server/internal/unifi/stp.go:102-211 | Acyclic and all running: a component without priority rows has its minimum priority at the topology root |
| StpAudit.WrongRootIsTieBreak | server/internal/unifi/stp.go:102-211 | So a wrong-root row there can only come from a MAC tie-break |
| StpAudit.LowerBridgeShowsOnPath | server/internal/unifi/stp.go:102-211 | A bridge with strictly lower priority than its root forces a priority row on its way to the root |
| StpAudit.OneWrongRootPerComponent | server/internal/unifi/stp.go:163-186 | Two wrong-root rows never share a component |
| MacText.NormalizeTwice | server/internal/unifi/names.go:29-47 | Normalising a normalised MAC changes nothing, for canonical and odd input |
| MacText.NormalizeMeans | server/internal/unifi/names.go:29-51 | Twelve hex digits, however separated, become six upper-case pairs; anything else is trimmed upper-case text |
| NameSync.Diff | server/internal/unifi/names.go:88-143 | Exactly the hosts' rows, one per host whose UniFi alias is missing or different, conflicts before the rest and then by name without regard to case |
| NameSync.FirewallaNameMeans | server/internal/unifi/names.go:53-69 | A host's own name if it tells more than its MAC, else its local domain if that does, else none |
| NameSync.UnifiNamesMean | server/internal/unifi/names.go:71-86 | The alias if it tells more than the MAC; shown is that, or else such a hostname |
| NameSync.RowForMeans | server/internal/unifi/names.go:98-129 | A host has a row exactly when it is known to UniFi, is no infrastructure, has a name and its alias is missing or different; and each field of that row |
| NameSync.RowsCount | server/internal/unifi/names.go:88-133 | A row occurs exactly as often as there are hosts that have it |
| NameSync.NextDiffDropsWritten | server/internal/unifi/apply.go:46-80 | With distinct host MACs and user ids, whatever the controller answers, the next diff has exactly the rows that did not come out ok |
| NameSync.OneRoundIsEnough | server/internal/unifi/apply.go:46-80 | So when every write succeeds the next diff has exactly the rows that were not chosen |
| NameSync.NextRow | server/internal/unifi/names.go:98-129 | A round removes a host's row if it was written and changes no other host's row |
| NameSync.SyncedHasNoRow | server/internal/unifi/names.go:98-129 | A host whose alias is its Firewalla name has no row |
| NameSync.ApplyNames | server/internal/unifi/apply.go:46-80 | Two attempts per row at most, results and user table as the row-by-row account says |
| NameSync.ResultsMatchRows | server/internal/unifi/apply.go:46-80 | Results match rows one to one, whatever the controller answers |
| NameSync.ResultMeans | server/internal/unifi/apply.go:46-80 | A row comes out ok exactly when its user is known, its last attempt was accepted and no earlier row was denied; and the error it carries otherwise |
| NameSync.DenialStopsWriting | server/internal/unifi/apply.go:50-79 | After the first 401 or 403 that is met no later row is written and all of them carry its message |
| NameSync.SelectRows | server/internal/unifi/apply.go:17-43 | Exactly the wanted rows with a name to give, in order |
| NameSync.WantedKeysMean | server/internal/unifi/apply.go:17-27 | The wanted keys are those of the MACs that are not blank |
| NameSync.PartitionExcluded | server/internal/unifi/names.go:146-165 | Excluded MACs on one side, the rest on the other, order kept, none lost |
| NameSync.KeepIsMarked | server/internal/unifi/names.go:146-165 | Either side is the rows whose own MAC key is, or is not, among the excluded ones, in order |
| NameSync.AutoFill | server/internal/unifi/autofill.go:6-35 | Exactly the rows of the diff that are empty, can be named and are not excluded are written |
| NameSync.EmptyRowHasNoAlias | server/internal/unifi/names.go:71-86 | A row with status "empty" is about a user without a usable alias |
| NameSync.UsableAliasSurvives | server/internal/unifi/autofill.go:6-35 | Whatever the controller answers, auto-fill leaves every user with a usable alias as it was |
| AgentHub.AtMostOneResult | server/internal/agenthub/hub.go:431-465 | In every run each waiter channel gets at most one result and no result is thrown away by a full buffer |
| AgentHub.BusyMeansOwned | server/internal/agenthub/hub.go:337-352 | A request that found the hub online is told "busy" exactly when another request that has not returned owns the slot, and waits exactly when the slot is its own |
| AgentHub.NoWaiterIsStranded | server/internal/agenthub/hub.go:289-377 | In every run a waiting request still has its slot, or a result is on its way to it, or there: exactly one of the three, whoever else releases, closes or completes; and a request that is not in progress never holds the slot |
| AgentHub.ResultArrives | server/internal/agenthub/hub.go:431-443 | A result taken for a waiting request is what it returns, if it is still waiting when it comes |
| AgentHub.RequestCompletes | server/internal/agenthub/hub.go:289-377 | With the agent online and the slot empty, a request returns the next completion's value and leaves the slot empty |
| AgentHub.OfflineRefuses | server/internal/agenthub/hub.go:333-336 | A request is refused as offline exactly while no read loop of the newest connection runs |
| AgentHub.GivingUpFreesTheSlot | server/internal/agenthub/hub.go:346-377 | A request that cannot write returns "agent_offline", one that waits too long "timeout", and neither leaves itself in the slot |
| AgentHub.NewestConnectionDecides | server/internal/agenthub/hub.go:102-128 | In every run the hub is online exactly while the read loop of the newest connection runs, and that connection is the live one; the end of an older one changes neither |
| AgentHub.SupersededCloseIsHarmlessIff | server/internal/agenthub/hub.go:112-128 | In every run, the close of a connection that is not the live one leaves the live one alone, leaves slot, requests and results alone if and only if the slot is empty, and turns away exactly the request in the slot |
| AgentHub.CloseFailsTheSlotOwner | server/internal/agenthub/hub.go:126-127 | Otherwise it fails exactly the request in the slot, if that is still waiting, and no other request is worse off; this holds as well when the request was made between the two sections of the close |
| AgentHub.SupersededCloseFailsLiveRequest | server/internal/agenthub/hub.go:112-128 | A run in which a superseded connection's close fails a request of the live one |
| AgentHub.RunKeepsInv | server/internal/agenthub/hub.go:289-377 | Slot, channels, requests and connections stay consistent over every run, with the online check, the slot, and both sections of a close as separate steps |
| AgentHub.Server.Attach | server/internal/agenthub/hub.go:102-110 | The new connection becomes the live one, as the step does |
| AgentHub.Server.Detach | server/internal/agenthub/hub.go:113-121 | Offline exactly when the closing connection is the live one, as the step does; it says whether anything changed |
| AgentHub.Server.Acquire | server/internal/agenthub/hub.go:337-344 | Busy exactly when the slot is owned; otherwise it is taken, as the step does |
| AgentHub.Server.Release | server/internal/agenthub/hub.go:346-352 | Frees the slot only of its own channel, as the step does |
| AgentHub.Server.Take | server/internal/agenthub/hub.go:431-443 | Takes the channel out of the slot, so that nobody sends twice |
| AgentEvents.EventsAreNotLost | agent/internal/wsclient/client.go:318-352 | So while no flush starts before the last one got its ack or gave up, at every moment each appended event is in the file or stored by the server, late deliveries included |
| AgentEvents.RunLosesNothingIff | agent/internal/wsclient/client.go:318-352 | Over every run, overlapping flushes and deliveries after the timer included: no event is ever lost if and only if no ack counts past the lines that deliveries have reached |
| AgentEvents.AckIsSafeIff | agent/internal/agentevents/store.go:59-94 | While nothing is lost, an ack loses nothing if and only if the lines dropped so far plus those it counts, or the whole history if that is shorter, are within what was delivered |
| AgentEvents.StepKeepsPrefix | server/internal/agenthub/hub.go:170-186 | While nothing is lost the server holds exactly a prefix of the appended lines, and a delivery moves its end to where it reaches |
| AgentEvents.AloneIsWithinReach | agent/internal/wsclient/client.go:318-352 | The ack of a flush that is alone and saw no drop since it read the file never counts past its own delivery |
| AgentEvents.AckDropsWhatWasSent | agent/internal/agentevents/store.go:59-94 | With no other drop in between, exactly the sent lines go, even when lines were appended meanwhile |
| AgentEvents.FlushDelivers | agent/internal/wsclient/client.go:318-352 | A flush that nothing disturbs leaves every pending line stored and the file empty; one that was given up drops nothing |
| AgentEvents.FileIsEndOfAppends | agent/internal/agentevents/store.go:30-94 | In every run the file is what was appended, in order, without the dropped lines at its start |
| AgentEvents.OverlapLosesAnEvent | agent/internal/wsclient/client.go:318-352 | A run of two overlapping flushes that loses an event |
| AgentEvents.NothingLostMeans | server/internal/agenthub/hub.go:170-186 | The dropped prefix being stored is the same as no appended line being lost |
| AgentEvents.Store.Append | agent/internal/agentevents/store.go:30-49 | Adds one line at the end |
| AgentEvents.Store.Pending | agent/internal/agentevents/store.go:52-56 | All lines, oldest first |
| AgentEvents.Store.Drop | agent/internal/agentevents/store.go:59-94 | Removes exactly the first n lines, all of them if there are fewer, none for n not positive |
| LogBatches.SplitBatches | agent/internal/svclogs/collect.go:130-172 | For every input and cap: batches concatenate to a subsequence, kept plus dropped is everything, every batch has at most 200 lines and 64 KiB, with 32 bytes for each line besides its text, or is a single oversized line, the last slot never exceeds the byte cap, a batch is closed only when it is full for the next line, and a dropped line would not have fitted into the last slot even at the end |
| LogBatches.PlaceLine | agent/internal/svclogs/collect.go:143-165 | One turn of the loop keeps the account of kept and dropped lines and closes a batch only when it is full |
| LogBatches.FinishSplit | agent/internal/svclogs/collect.go:166-171 | The final flush completes the split, and its dropping branch never has anything to drop |
| LogBatches.EmptySplit | agent/internal/svclogs/collect.go:130-172 | No batch comes out if and only if no line came in, or one slot met only oversized lines |
| LogBatches.CollectBatches | agent/internal/svclogs/collect.go:97-106 | Batches are numbered from 0, only the last is done, and its dropped count accounts for every missing line exactly when some batch could be made |
| RateLimit.LimiterHolds | server/internal/auth/ratelimit.go:33-83 | With a clock that never runs back, the pruning limiter's answers are those of the full history, and no key has more than `limit` allowed events in any half-open window |
| RateLimit.AnswersMean | server/internal/auth/ratelimit.go:33-65 | Call by call: allowed exactly when fewer than `limit` earlier calls of the same client, blank ones counting as one, were allowed in the window before it |
| RateLimit.SkewedLimiterHolds | server/internal/auth/ratelimit.go:40-63 | With clock readings that reach the lock out of order by up to a skew: no key has more than `limit` allowed events in any half-open window that is shorter by the skew |
| RateLimit.SameAnswers | server/internal/auth/ratelimit.go:33-83 | Call by call, pruning changes no answer |
| RateLimit.CallAgrees | server/internal/auth/ratelimit.go:33-65 | One call keeps the pruned lists in agreement with the full history |
| RateLimit.RunKeepsLimit | server/internal/auth/ratelimit.go:33-65 | The bound on every window, whatever the calls |
| RateLimit.CallKeepsWithin | server/internal/auth/ratelimit.go:33-65 | Every stored list stays within the limit |
| RateLimit.Compact | server/internal/auth/ratelimit.go:45-54 | The in-place compaction leaves exactly the recent hits, in order, at the front of the array |
| RateLimit.IPRateLimiter.constructor | server/internal/auth/ratelimit.go:18-30 | Starts empty, with the defaults for limits and windows that are not positive |
| RateLimit.IPRateLimiter.Allow | server/internal/auth/ratelimit.go:33-65 | Its answer and new state are the limiter's step, and every list stays within the limit |
| RateLimit.IPRateLimiter.PruneHits | server/internal/auth/ratelimit.go:67-83 | Every list is trimmed and a key left with none is forgotten |
| RateLimit.IPRateLimiter.Trimmed | server/internal/auth/ratelimit.go:45-54 | The recent hits of one list |
| Sessions.ForgettingIsInvisible | server/internal/auth/touch.go:28-46 | With a clock that never runs back, a gate that forgets stale keys answers as one that keeps all |
| Sessions.GateAnswers | server/internal/auth/touch.go:28-46 | With such a clock an ask is due exactly when none was due for its key within the interval before it |
| Sessions.TouchGate.IsDue | server/internal/auth/touch.go:28-46 | Its answer and new map are the gate's step |
| Sessions.HandledIsFresh | server/internal/auth/middleware.go:87-92 | From login on, in every interleaving without overtaking: at every moment the idle deadline is beyond t + idle - interval, where t is when the last handled request passed the gate |
| Sessions.PromisedIffCovered | server/internal/auth/session.go:80-102 | In any state, whatever overtakes whatever: every lookup within idle - interval of the last use and before expiry is accepted in every continuation, if and only if the stored deadline and every deadline about to be written reach the end of that window |
| Sessions.LoginIsPromisedIff | server/internal/auth/session.go:57-102 | From login on, in every interleaving: that promise holds at every moment if and only if the window is covered whenever a use of the session counts |
| Sessions.SessionInUseStaysAlive | server/internal/auth/session.go:57-102 | From login on, in every interleaving in which each counted use is covered: a session used at gaps of at most idle - interval is accepted until its absolute expiry |
| Sessions.SerialSessionStaysAlive | server/internal/auth/middleware.go:87-92 | Without overtaking every use is covered: the session stays alive as long as none of its requests passes the gate while another one owes it a write |
| Sessions.UseKeepsAlive | server/internal/auth/session.go:80-102 | The same from any moment at which the window is covered |
| Sessions.StepKeepsCovered | server/internal/auth/session.go:80-102 | The step invariant: while the window is open it stays covered, whatever request takes whatever step, and lookups in it are accepted |
| Sessions.StepKeepsAlive | server/internal/auth/middleware.go:87-92 | Without overtaking, the deadline covers the last use and a pending write will reach the gate's entry, after every step |
| Sessions.OvertakingCostsASession | server/internal/auth/touch.go:28-46 | A run in which a request is handled while another's write is still to come, and the session is refused three seconds later with an idle time of ten |
| Sessions.AbsoluteExpiryHolds | server/internal/auth/session.go:80-94 | In every interleaving, however often it is touched, a session is refused after the expiry it was created with |
| Sessions.IdleSessionIsRefused | server/internal/auth/session.go:80-102 | From login on, in every interleaving: no deadline, stored or about to be written, is later than idle after the login or the latest clock reading of a write, so every later lookup is refused |
| Sessions.ExpiryNeverMoves | server/internal/auth/session.go:97-102 | No run of requests changes a session's absolute expiry |
| Sessions.RequestExtends | server/internal/auth/session.go:97-102 | A request that passes lookup and gate moves the idle deadline to idle after its write's clock, and nothing else of the session |
| Sessions.LateLookupDeletes | server/internal/auth/session.go:85-93 | A lookup past either deadline deletes that session and nothing else |
| Sumflow.TablesAgree | agent/internal/collect/dashboard.go:522-665 | For any rows in both directions, the device and destination tables are exact transposes and every device, destination and region total is the sum of its nested entries plus the bytes of rows that lack the other end |
| Sumflow.TotalsAddUp | agent/internal/collect/dashboard.go:522-616 | The total law for any two ends |
| Sumflow.Transposes | agent/internal/collect/dashboard.go:606-613 | The transpose law for any two ends, presence of entries included |
| Sumflow.TotalPut | agent/internal/collect/dashboard.go:618-665 | Adding bytes to one entry, new or not, adds them to the table's sum |
| Sumflow.BookStep | agent/internal/collect/dashboard.go:534-614 | One more row keeps all seven tables equal to the sums over the history |
| Sumflow.Tables.Accumulate | agent/internal/collect/dashboard.go:495-520 | The current key counts when it has a readable row, and otherwise the hourly keys do, never both; entry by entry of all seven tables, the direction of the pass grows by the scores of the rows that name it and the other stays |
| Sumflow.Tables.AccumulateKey | agent/internal/collect/dashboard.go:522-616 | In each table exactly the entries named by a readable row are added; each entry's bytes in the direction of the pass grow by the floored scores of the readable rows that name it, and the other direction stays; the answer says whether there was a readable row |
| Sumflow.BookRaises | agent/internal/collect/dashboard.go:522-665 | The same of the tables as functions of the history: which end a row names is read off the row itself |
| Sumflow.Tables.AddRow | agent/internal/collect/dashboard.go:546-613 | One row's effect on all seven tables |
| Sumflow.BumpNested | agent/internal/collect/dashboard.go:618-646 | One nested entry grows by the bytes in the one direction and not in the other, created at zero if need be; every other entry stays |
| Sumflow.AddDir | agent/internal/collect/dashboard.go:659-665 | One entry grows by the bytes in the one direction and not in the other, from zero if it is new; every other entry stays |
| Speedtest.BatchesCompose | server/internal/store/catalog.go:155-215 | For every prior catalog, two batches in turn equal their concatenation, and a batch merged again changes nothing |
| Speedtest.MergedRowIsExact | server/internal/store/catalog.go:182-209 | Times strictly increase, the headline is the last point's, and each time holds the old point overlaid with what the batch says about it |
| Speedtest.MergedRowTakesIn | server/internal/store/catalog.go:182-229 | Time by time: the figures of the last point of the batch that counts, else the old ones; of each name the last that is given, else the old one; a new time exactly when some point counts; name and plan stay |
| Speedtest.ListUnique | server/internal/store/catalog.go:199-204 | One time-ordered list exists for the points by time, so map order does not show |
| Speedtest.FoldTwice | server/internal/store/catalog.go:187-198 | Folding a batch in twice is folding it once, repeated times within the batch included |
| Speedtest.JoinAssociative | server/internal/store/catalog.go:217-229 | Point merging is associative and idempotent |
| Speedtest.SortedIsList | server/internal/store/catalog.go:199-203 | Sorting the map's values, in whatever order they came, gives that list |
| Speedtest.CatalogStore.MergeSpeedtest | server/internal/store/catalog.go:155-215 | Only the first row of the trimmed uuid takes the batch in, or a new last row named after it does, and every other row stays; a blank uuid or an empty batch leaves even a missing catalog missing |
| TimeSeries.TimedHits | agent/internal/collect/timeseries.go:33-89 | For every `now`: exactly `count` consecutive slots ending at the rounded `now`, each with the value a look at that slot alone gives; an error exactly when a requested key fails, that of a surplus slot included; nothing for a count that is not positive |
| TimeSeries.LooksMean | agent/internal/collect/timeseries.go:80-89 | A hit shows its slot's time, and the cell of that time in the hash of metric, granularity and rounded bucket, or 0 |
| TimeSeries.WindowIsEnough | agent/internal/collect/timeseries.go:38-40 | Rounding toward zero visits `count` or `count` + 1 slots, on the slot grid, for negative times as well |
| TimeSeries.RoundMeans | agent/internal/collect/timeseries.go:102-107 | Rounding goes to the next multiple on the side of zero |
| TimeSeries.GranularitiesAre | agent/internal/collect/timeseries.go:91-100 | Quarter hours in buckets of 50 hours, days in buckets of 52 weeks, anything else hours in buckets of a week |
| TimeSeries.RequestsAskOnce | agent/internal/collect/timeseries.go:42-66 | One request per key, every generated slot asked for exactly once under its own key, and nothing else asked for |
| TimeSeries.Window | agent/internal/collect/timeseries.go:38-49 | The loop generates exactly the window's slots |
| TimeSeries.Group | agent/internal/collect/timeseries.go:47-60 | Buckets hold each key's slots in order, keys in order of first use |
| TimeSeries.KeysGrow | agent/internal/collect/timeseries.go:47-60 | Later slots only add keys at the end: the keys are in order of first use |
| TimeSeries.Fetch | agent/internal/collect/timeseries.go:62-79 | Exactly the grouped requests are sent, up to the first failing key, and every readable cell is read and no other |

## Left out

- Pairing: the generation is unbounded (no wrap at 2^64), writes to the key-value store succeed, and a vault that cannot be read or written ends the call without a change.
- Pairing: encryption, JSON and the init parsers are abstracted; a response carries its credentials, a serial number and whether its views are non-empty.
- Pairing: in the runs a restart falls between steps; deaths inside a section are treated on their own.
- Pairing: status changes by commands other than Pair and fetch may happen at any time and nothing is claimed about them; `preferInitUntil` and speed jobs are not modelled.
- SingleFlight: Go's memory model; each visible statement is one step.
- HostPolicies: deep-copy isolation of snapshots (server/internal/fwapp/rules_cache.go:44-88 and server/internal/fwapp/init_cache.go:59-143), because values cannot alias here; MAC parsing of the arguments.
- HostPolicies: the box is modelled as replacing the keys it is sent; a stored `isolation.internal` never shows in the decoded policy.
- Topology: trees are values, so slice aliasing and the defensive clones (server/internal/unifi/merge.go:266-302) are not captured; MACs are canonical identifiers everywhere except in `NameSync`.
- UnifiMerge.Merge: the exact tree is claimed for distinct, new and acyclic UniFi MACs, since `attachTree` moves or duplicates nodes otherwise; the effect of one attachment on any tree is `Topology.AttachLinks`.
- TplinkHangOff: `Merge` of the TP-Link package as a whole and its tree attachment, which only grafts or appends in catalog order: it detaches nothing and makes no placeholder.
- StpAudit: fallback lookups for MACs in another spelling, and parsing of STP settings.
- NameSync.Diff: the order of rows with equal sort keys; text is ASCII.
- NameSync.ApplyNames: the HTTP transport; each PUT is a result code and a change of the user table. Waiting before a retry, the preferences lock and the audit report are left out.
- AgentHub: one of the two waiter slots is modelled, since both run the same code; WebSocket framing and write locks, hello and heartbeat handling, self-update, and the `SetOnline` test hook.
- AgentEvents: lines that cannot be parsed, file-system errors, and the server acknowledging a batch whose insert failed.
- LogBatches: reading of journals and log files, cursors, and end-to-end delivery, which reused batch ids do not support after an ack timeout.
- Sessions: a lookup's read, clock reading and deletion are one step, and clock readings of different requests come in the order of their steps.
- Sessions.ForgettingIsInvisible: for readings that reach the gate out of order, forgetting can make a write due early; that is not modelled.
- RateLimit, Sessions: clocks are parameters; logouts, session storage errors and API keys.
- Sumflow: 64-bit overflow, the labels an entry shows (name, type, address, country name), resolution of country names, and ranking.
- Speedtest: floating-point readings are reals, and persistence of the catalog and the rest of its contents are not modelled.
- TimeSeries: 64-bit overflow, and a reply with fewer values than fields asked for.
- HTTP handlers, the React user interface, environment configuration, SQLite, Redis and LAN or cloud transport.

# A verified model of librefw

librefw is a kernel packet filter for IPv4. It drops TCP packets whose source is in a list of bogon prefixes and,
while the attack flag is set, TCP packets whose hop count does not fit what was learned about their /24. Both tables
are binary tries published with RCU. The filter also keeps an event log in ring-buffer pages.

This project models that logic in Dafny and proves what it is supposed to keep. `dafny verify dfyconfig.toml` checks
all of it.

## How the files hang together

| file | role |
|---|---|
| `Bits.dfy` | `in4_get_bit`, `in4_get_masked`, shifts and masks; routes of bits |
| `Trie.dfy` | versions of a trie (route -> node and data): path copying, growth, which nodes two versions share |
| `Rcu.dfy` | memory cells, what a heap holds below a root, what a path copy writes |
| `Reclaim.dfy` | the transition system of lookups, publications, swaps, `call_rcu`, grace periods and frees |
| `HopCount.dfy` | hop-count arithmetic and the abstract map of known /24s; replay and queue order |
| `HcfTree.dfy` | `hcf.c` as code on heap objects, proved against `Trie` and tied to the steps of `Reclaim` |
| `Bogon.dfy` | what a prefix list means, what trie it loads |
| `BogonTree.dfy` | `bogon.c` as code on heap objects |
| `RingBuffer.dfy`, `PacketLog.dfy` | record sizes, clock arithmetic, the page walk |
| `PageBytes.dfy` | the page walk on plain bytes, in numbers alone |
| `PageLayout.dfy` | an encoder written from the page layout; the walk inverts it |
| `HistoryTable.dfy` | the history table of `src/nl/hcf.cpp` |
| `Hooks.dfy` | the two netfilter hooks, the mode flag, the worker, as code over the two tries |
| `Firewall.dfy` | the whole filter as one transition system, every child pointer a packet follows being a step |
| `FirewallSafety.dfy` | its invariant, kept by every step |
| `FirewallRuns.dfy` | what follows for whole runs |
| `FirewallProgress.dfy` | the filter hook is wait-free |
| `FirewallHistory.dfy` | flag, list, store, hooks and messages as the events of a run tell them |
| `FirewallTries.dfy` | each trie of the filter goes through a run of `Reclaim`; every lookup has its packet |
| `FirewallInputs.dfy` | every command and message is accepted in every state |
| `ReplayLoss.dfy` | a run in which a replay forgets a /24 |

Each trie appears three times. As code it is a class with `child` pointers, run by one thread, and its contract names
the version (`Trie.Version`) that the heap holds before and after. As memory it is a map from addresses to cells. In
the transition systems any number of readers take one pointer step at a time between the steps of the writers. The
bridges are `HcfTree.WorkerTakesSteps`, `HcfTree.ReplayTakesSwapSteps` and `BogonTree.LoadTakesSwapStep`: what the
code leaves in memory is what those steps write, and what it hands over for freeing is what those steps unlink.

## Decisions

- A worker's clones are private until `rcu_assign_pointer`, and the mutex excludes other writers, so cloning, linking
  and publishing are one step (`Publish`). Handing each replaced node to `call_rcu` is a step of its own, after the
  mutex has been dropped.
- A grace period is the ending of every reader that had begun when the wait was started. Freed addresses may be
  handed out again at once.
- `begun`, `tree`, `published`, `list`, `known`, `loaded`, `announced` and `base` are history variables: no step
  depends on them. `Reclaim.PublishedIsHeap` shows that `published` is determined by the heap.
- The workqueue is unbound, so queued tasks form a multiset from which any task may be next.
- Machine words are integers in the range of their type; shifts, masks, truncation and wrap-around are written out.
- The bogon tree is freed in a callback after its swap; this is the same pair of steps (`Synchronize`, `FreeTree`) as
  `synchronize_rcu` and `hcf_free_node`.
- The lookup of a null root and the end of a lookup are merged with the packet step that follows them.
- Reading `state->tree` and then `tree->root` (kernel/src/bogon.c:152-155) is one step. The small `struct lfw_bg_tree`
  in between is not part of the modelled memory; the callback frees it together with the nodes below it, after the
  same grace period.
- Record type numbers (data 0 to 28, padding 29, time extend 30, time stamp 31) and the 5/27-bit header are those of
  `linux/ring_buffer.h`, which is not part of this model. Words are little-endian.
- The announcement of a new /24 carries the values that the new leaf had under the mutex.
- `hcf_register_ip_work` is one C function; here its two loops and its retire loop are methods of their own.

## Where the code falls short

- `rb_fix_abs_ts` is there to reinsert the five top bits of an absolute time (kernel/include/util/ring_buffer.h:15-19).
  For a time less than 2^59 after the previous one it does so exactly when the
  previous time has one of them set or the new time has none (`RingBuffer.FixAbsTsExact`); the time stamp with which
  the clock first crosses 2^59 sets it back to zero (`RingBuffer.FixAbsTsLosesTopBits`).
- The page walk makes no progress on a record whose length word wraps when the header size is added
  (`RingBuffer.ZeroLength`). It ends exactly when it meets none (`PacketLog.TerminatesExactly`), and there is a page
  of 8 bytes on which it never ends (`PacketLog.WalkMayNeverEnd`). The ring buffer does not write such a record: every
  length word counts bytes of one page, and librefw reserves records of one small fixed size
  (kernel/src/log/packet_filter.c:140). No page that is laid out from records that fit meets the case
  (`PageLayout.WalkInvertsLayout`); only a damaged page can.
- A replay forgets the /24s that the store did not name when the rows were read, even if they have been announced and
  stored since (`FirewallRuns.ReplayKeepsExactly`, with a run for every sighting in `ReplayLoss.ReplayForgets`).
- A hop count is recovered only if the packet arrives above the next smaller initial TTL (`HopCount.HopsRecovered`).

## Model

| member | source | states |
|---|---|---|
| Bits.SamePrefixSamePath | kernel/src/utils.c:13-23 | For every pair of addresses and every length 0 to 32, `in4_get_masked` agrees on them if and only if `in4_get_bit` reads the same first bits of both. |
| Bits.MaskedBit | kernel/src/utils.c:18-23 | Masking keeps exactly the leading `prefix_len` bits and clears the others, lengths 0 and 32 included. |
| Bits.SameKeySamePath | kernel/src/hcf.c:143-144 | The 24 bits that the hop-count trie descends by are equal for two addresses if and only if `ip >> 8` is. |
| Bits.MaskedArithmetic | kernel/src/utils.c:18-23 | `in4_get_masked` is the largest multiple of 2^(32 - length) in the address, for all lengths. |
| Bits.RouteBits | kernel/src/utils.c:13-16 | `in4_get_bit` at index j is the bit of weight 2^(31 - j). |
| Trie.PathCopyNodes | kernel/src/hcf.c:132-183 | The nodes that path copying retires are exactly those of the old version that the new one does not contain; it adds exactly the new names. |
| Trie.PathCopyLeaves | kernel/src/hcf.c:139-171 | Path copying is a map update: the key gets the new value, every other 24-bit key reads as before. |
| Trie.PathCopyIsTree | kernel/src/hcf.c:139-165 | Cloning a path and sharing the rest keeps the tree shape: no node at two routes, every route's prefixes present. |
| Trie.PathCopyPruned | kernel/src/hcf.c:143-165 | Leaves stay at depth 24 only, and every node stays on the way to one. |
| Trie.PathCopyCounts | kernel/src/hcf.c:125-165 | Nodes replaced and nodes created add up to the path length plus one (25), so the retire array of 33 is never overrun. |
| Trie.PathCopyGrowth | kernel/src/hcf.c:154-165 | The trie grows by exactly the number of nodes created. |
| Trie.RouteComplete | kernel/src/hcf.c:174-175 | No node is created if and only if the key was known. |
| Rcu.VersionUnique | kernel/src/hcf.c:86-98 | A heap holds one version below a root, so what a recursive free visits is determined. |
| Rcu.PublishIntact | kernel/src/hcf.c:132-171 | After a path copy the heap holds the copied version below the new root, and it still holds the old version, every node as it was. |
| Rcu.VisitedAreReplaced | kernel/src/hcf.c:132-157 | The nodes a worker meets by following child pointers down the old path are exactly the ones on the key's route. |
| Reclaim.Keep | kernel/src/hcf.c:71-193 | Every step keeps the invariant: each allocated cell is in exactly one of published tree, unlinked, pending callback or swapped-out tree, and every running lookup's version is intact and waited for. |
| Reclaim.ReadersNeverDangle | kernel/src/hcf.c:204-219 | No lookup holds, or can follow a pointer to, a freed node. |
| Reclaim.PublishedIsHeap | kernel/src/hcf.c:171 | The published version is the only one that the heap holds below the root. |
| Reclaim.UnlinkedExactly | kernel/src/hcf.c:132-183 | In every reachable memory, a publication unlinks exactly the nodes reachable from the old root and not from the new one. |
| Reclaim.FreesOnlyGarbage | kernel/src/hcf.c:86-98 | A free, of one node or of a whole tree, touches only allocated nodes that no root, no lookup, no other callback and no other swapped-out tree has. |
| Reclaim.HeapKeysStep | kernel/src/hcf.c:71-193 | Memory changes by exactly what a step allocates and frees, and allocation never reuses a live address. |
| Reclaim.FreedOnce | kernel/src/hcf.c:189-193 | In every run a node freed twice, by either path, was allocated again in between. |
| Reclaim.StaysFreed | kernel/src/hcf.c:86-98 | A freed node stays out of the heap until it is allocated again. |
| Reclaim.GarbageNeverStuck | kernel/src/hcf.c:71-98 | However many lookups run: every allocated node outside the published tree has its own next step enabled, or waits for a reader of its own that is still running. |
| Reclaim.WaitsShrink | kernel/src/hcf.c:82 | A wait that has begun only ever loses readers: no step, and no new reader, adds to it. |
| Reclaim.RunWaitsForElders | kernel/src/hcf.c:181-183 | In every run, whoever is waited for began before the wait did. |
| Reclaim.CleaningCounts | kernel/src/hcf.c:71-98 | Each `call_rcu`, grace period start and free brings the clean heap exactly one step nearer; lookups do not change the distance. |
| Reclaim.CleanHeap | kernel/src/hcf.c:71-98 | The distance is zero if and only if the heap is the published tree and nothing else. |
| Reclaim.CleaningEnds | kernel/src/hcf.c:71-98 | In every run, between two writes, reclamation takes at most that many steps, and has taken them all if and only if the heap is the published tree. |
| Reclaim.CallRcuInTurn | kernel/src/hcf.c:181-183 | Handing distinct unlinked nodes over one after the other is enabled throughout, moves exactly those nodes, and changes nothing else. |
| Reclaim.UnlinkedStays | kernel/src/hcf.c:181-183 | No step but its own `call_rcu` takes an unlinked node away, so the loop may be interrupted anywhere. |
| Reclaim.LookupSeesOneVersion | kernel/src/hcf.c:204-234 | In every run, whatever is published, swapped and freed during its steps, a lookup is at each depth where the version it began with leads, and reads that version's data. |
| Reclaim.EachLookReadsItsNode | kernel/src/hcf.c:212-223 | Each reading of a lookup is, for the depth reached, what the version it began with holds there. |
| Reclaim.LookupTakesItsSteps | kernel/src/hcf.c:213-219 | A lookup is as deep as it has followed pointers, and has as many readings as it has made. |
| Reclaim.RunningReaders | kernel/src/hcf.c:207-233 | In every run the lookups running are exactly those that have begun and not ended. |
| Reclaim.RunInv | kernel/src/hcf.c:71-193 | The invariant holds in every state of every run. |
| HopCount.Key | kernel/src/hcf.c:214-215 | A lookup descends 24 levels. |
| HopCount.HopsRecovered | kernel/src/hcf.c:195-202 | The hop count of a packet sent with 64, 128 or 255 is recovered if and only if its TTL stays above the next smaller initial value. |
| HopCount.LearnThenLookup | kernel/src/hcf.c:167-231 | Learn from (i1, h1), look up (i2, h2) of the same /24, whenever both hop counts are recovered, which includes all up to 63: match if and only if the distances differ by at most 2. |
| HopCount.LearnOther | kernel/src/hcf.c:204-231 | Learning one /24 changes no answer about an address with another `ip >> 8`. |
| HopCount.ReplayedIsLast | kernel/src/hcf.c:279-326 | A history message yields exactly the keys it names, each with the values of its last entry. |
| HopCount.DrainedKeys | kernel/src/hcf.c:123-187 | Draining tasks in some order adds exactly their keys. |
| HopCount.AnyOrderSameKeys | kernel/src/hcf.c:236-251 | Any two orders of the same multiset of tasks give the same keys. |
| HopCount.DrainedValues | kernel/src/hcf.c:167-169 | A touched key has the value of the last of its own tasks; an untouched key keeps its value. |
| HcfTree.ChainDepicts | kernel/src/hcf.c:139-169 | Once every level of the clone leads to the next and otherwise to what the old node led to, the heap below the new root is the copied version. |
| HcfTree.PublishedTree | kernel/src/hcf.c:132-183 | What the two loops build and note down is a tree with leaves at depth 24 only, and everything noted is out of it and pending once. |
| HcfTree.MirrorIntact | kernel/src/hcf.c:204-219 | Heap objects that depict a version are memory cells that hold it. |
| HcfTree.MirrorPublished | kernel/src/hcf.c:139-171 | The objects a worker leaves behind are, cell by cell, those that the publishing step of the transition system writes. |
| HcfTree.WorkerTakesSteps | kernel/src/hcf.c:132-183 | A worker's run is an enabled `Publish` step with the memory and root the code leaves, which unlinks exactly the nodes the code retires, followed by an enabled `call_rcu` step for each of them in turn. |
| HcfTree.MirrorReplaced | kernel/src/hcf.c:272-334 | A replay's change of memory adds the cells of the new tree, removes those of the old one, and touches no other. |
| HcfTree.ReplayTakesSwapSteps | kernel/src/hcf.c:71-84 | That change is the steps swap, wait, free of the transition system: with any lookups running at the swap and any that have begun since, the free is enabled if and only if those of the swap have ended, and leaves the memory the code leaves. |
| HcfTree.ChildrenOf | kernel/src/hcf.c:86-98 | The nodes below a node are the node and those below its two children, without overlap. |
| HcfTree.HcfState.constructor | kernel/src/hcf.c:21-58 | The module starts with a root node and knows nothing. |
| HcfTree.HcfState.LookupTree | kernel/src/hcf.c:204-234 | -1 for an unknown /24; for a known one 1 if the TTL's hop count is within 2 of the stored one, otherwise 0. |
| HcfTree.HcfState.ClonePath | kernel/src/hcf.c:132-157 | Clones exactly the existing levels of the path, notes each cloned node, and stops at the first missing level or at depth 24. |
| HcfTree.HcfState.CreateRest | kernel/src/hcf.c:159-165 | Creates exactly the missing levels. |
| HcfTree.HcfState.Retire | kernel/src/hcf.c:181-183 | Hands every noted node to `call_rcu`, in order, and nothing else. |
| HcfTree.HcfState.CopyPath | kernel/src/hcf.c:139-183 | The new version is the path copy of the old one, which the heap still holds; the nodes handed to `call_rcu` are exactly those of the old version that the new one has not; memory changes as in the publishing step. |
| HcfTree.HcfState.RegisterIpWork | kernel/src/hcf.c:123-187 | Refines map update; with a null root nothing changes; retires exactly the nodes of the old version that the new one has not; announces the new values if and only if the /24 was unknown; `free_count + nodes_created = 25`. |
| HcfTree.HcfState.FreeNode | kernel/src/hcf.c:86-98 | Reads and frees only allocated nodes, each once, and exactly the subtree. |
| HcfTree.HcfState.SwapTree | kernel/src/hcf.c:71-84 | Publishes the new tree and frees exactly the nodes of the old one. |
| HcfTree.HcfState.InsertEntry | kernel/src/hcf.c:314-323 | One history entry is a map update and counts the nodes it created. |
| HcfTree.HcfState.RegisterIpHistory | kernel/src/hcf.c:272-334 | The new trie knows exactly what the message describes, is made of new nodes only, has one more node than were counted, and the old nodes are gone. |
| Bogon.CoveredIsMarked | kernel/src/bogon.c:115-179 | An address is covered by the list (by masks) if and only if its route meets a marked node. |
| Bogon.CoversArithmetic | kernel/src/utils.c:18-23 | A prefix covers an address if and only if both have the same quotient by 2^(32 - length). |
| Bogon.UnmarkedLeadsOn | kernel/src/bogon.c:109-136 | A node without children is a listed prefix; an unmarked node is never at depth 32. |
| Bogon.LoadedStep | kernel/src/bogon.c:115-136 | Inserting one more prefix keeps the node set the root plus the prefix closure of the listed bit strings, marked exactly at the listed ones. |
| Bogon.OrderAndRepetitionIrrelevant | kernel/src/bogon.c:102-147 | Lists with the same prefixes, permuted or repeated, load equal tries. |
| Bogon.NestedPrefixIrrelevant | kernel/src/bogon.c:149-184 | A prefix inside a shorter listed one changes no answer. |
| BogonTree.BuildTree | kernel/src/bogon.c:103-138 | The loops build the trie of the list; the `num_nodes` of each prefix is the number of routes it adds to those of the prefixes before it, and one plus their sum is the node count. |
| BogonTree.InsertPrefix | kernel/src/bogon.c:115-138 | Descends along the prefix, creates exactly the missing nodes, marks the last. |
| BogonTree.BgState.LoadBgTree | kernel/src/bogon.c:102-147 | Publishes the trie of the list, made of new nodes, hands over the old tree unchanged; each `num_nodes` is the number of routes its prefix adds, and one plus their sum is the number of distinct prefixes in the closure. |
| BogonTree.BgState.LookupBgTree | kernel/src/bogon.c:149-184 | Returns -1 before the first load, 1 if and only if some listed prefix has the same masked address, otherwise -2; never 0. |
| Bogon.DeadEnd | kernel/src/bogon.c:161-175 | A walk that leaves the trie without having met a mark proves the address uncovered. |
| Bogon.LastIsMarked | kernel/src/bogon.c:177-179 | A walk of 32 levels ends at a marked node. |
| BogonTree.LoadTakesSwapStep | kernel/src/bogon.c:140-146 | A load takes the swap step of the transition system: same memory, same root, the old tree left waiting for its grace period. |
| RingBuffer.ZeroLength | kernel/src/util/ring_buffer.c:44-82 | A record has length zero if and only if it is a long data or padding record whose length word wraps with the header. |
| RingBuffer.HighBits | kernel/src/util/ring_buffer.c:35-36 | Masking with `TS_MSB` keeps the multiple of 2^59 below the time. |
| RingBuffer.FixAbsTsMeaning | kernel/src/util/ring_buffer.c:33-42 | `rb_fix_abs_ts` without bit operations, for all 59-bit stamps and 64-bit saved times. |
| RingBuffer.FixAbsTsExact | kernel/src/util/ring_buffer.c:33-42 | A time less than 2^59 after the saved one is recovered from its low 59 bits if and only if the saved time is at least 2^59 or the time is below 2^59. |
| RingBuffer.FixAbsTsLosesTopBits | kernel/src/util/ring_buffer.c:35-41 | A concrete time at which recovery fails. |
| PacketLog.TerminatesExactly | kernel/src/log/packet_filter.c:202-245 | On any memory, the walk reaches the committed byte count if and only if no record start before it has a length word that wraps, a condition that is computed from the bytes before the walk. |
| PacketLog.WalkMayNeverEnd | kernel/src/log/packet_filter.c:202-245 | A concrete page of 8 bytes on which the loop never ends. |
| PacketLog.ProcessRbPage | kernel/src/log/packet_filter.c:194-252 | The loop computes the walk. |
| PageBytes.TimeExtendStep | kernel/src/log/packet_filter.c:210-213 | On bytes: header word 30 + 32 d and next word w advance the clock by 2^27 w + d mod 2^64 and the position by 8. |
| PageBytes.TimeStampStep | kernel/src/log/packet_filter.c:215-218 | On bytes: header word 31 + 32 d and next word w set the clock to 2^27 w + d, completed by the five top bits of the clock, and advance the position by 8. |
| PageBytes.PaddingStep | kernel/src/log/packet_filter.c:206-208 | On bytes: type 29 advances the clock by the delta and the position by the length word plus 4, or by 2^32 - 1 if the delta is zero. |
| PageBytes.ShortDataStep | kernel/src/log/packet_filter.c:220-240 | On bytes: types 1 to 28 emit one record with the fields at offsets 0, 4, 8, 10, 12, 13, 14 behind the header and advance the position by that many words plus the header. |
| PageBytes.LongDataStep | kernel/src/log/packet_filter.c:220-240 | On bytes: type 0 emits one record with the fields behind the length word and advances the position by that length plus 4. |
| PageBytes.EntryIsRead | kernel/src/log/packet_filter.c:34-42 | The entry read at a position is the one whose packed little-endian bytes are there. |
| PageLayout.WalkInvertsLayout | kernel/src/log/packet_filter.c:202-245 | For every sequence of records that tiles the committed bytes, and any bytes behind them: the walk ends with bytes read equal to `commit` and emits one record per data event, in order, with its fields and absolute time. |
| PageLayout.WalkStopsAtNullPadding | kernel/src/util/ring_buffer.c:63-66 | Null padding, whose length is the unsigned -1, ends the walk with what came before it. |
| PageLayout.StepPast | kernel/src/log/packet_filter.c:205-240 | One iteration consumes exactly one encoded record of any kind. |
| PageLayout.TickDecoded | kernel/src/log/packet_filter.c:205-221 | A time written as a delta, as an extended delta or as an absolute stamp is decoded to itself. |
| PageLayout.LoggedIsReadBack | kernel/src/log/packet_filter.c:194-247 | What was logged, with absolute times each written in any of the three ways, is what the walk emits. |
| PageLayout.ForwardExactly | kernel/src/log/packet_filter.c:205-221 | For every kind of record, the clock does not go back at it if and only if a stated bound holds: no overflow for deltas and extensions, for a stamp not being behind unless the top bits can still be raised. |
| PageLayout.ClockNeverGoesBack | kernel/src/log/packet_filter.c:197-221 | Along any records of any kinds the clock never goes back if and only if each of them meets its bound. |
| PageLayout.PageTimesNeverDecrease | kernel/src/log/packet_filter.c:197-221 | On every page of such records, in any mixture, the times of the emitted records never decrease. |
| PageLayout.TimelineIsForward | kernel/src/log/packet_filter.c:197-221 | The pages of a writer whose clock does not go back are such pages. |
| HistoryTable.HcfListener.OnMessageReceived | src/nl/hcf.cpp:28-61 | Insert or ignore: the first values of an address stay. |
| HistoryTable.HcfListener.SetIpHistory | src/nl/hcf.cpp:63-89 | The message lists every row of the table exactly once, in an order left open. |
| Hooks.Mode.IsUnderAttack | kernel/src/state.c:78-86 | Reads the flag of the published object. |
| Hooks.Mode.SetUnderAttack | kernel/src/state.c:88-103 | Publishes a changed copy; the old object is not written and is handed over for freeing. |
| Hooks.Filter.FilterIpv4Hook | kernel/src/hooks.c:66-92 | Drops if and only if the packet is IPv4 TCP and its source is covered by the loaded list, or the flag is set and its /24 is unknown or stored with a hop count more than 2 away. |
| Hooks.Filter.LearnIpv4Hook | kernel/src/hooks.c:94-114 | Queues the address and TTL of a TCP packet if and only if the flag is clear. |
| Hooks.Filter.RunTask | kernel/src/hcf.c:123-187 | A worker updates the map at its task's key and announces it if and only if it was unknown. |
| FirewallSafety.Step | kernel/src/hooks.c:66-114 | Every step of the composed system keeps its invariant: both tries, every packet's verdict so far, learning and announcing. |
| FirewallSafety.RunOk | kernel/src/hooks.c:66-114 | The invariant holds in every state of every run. |
| FirewallSafety.KeepPacket | kernel/src/hooks.c:66-92 | A packet's step leaves both published tries alone, and what every packet has concluded so far stays justified. |
| FirewallSafety.NothingFound | kernel/src/bogon.c:161-175 | A lookup that left its version without meeting a mark proves the source not covered by the list behind that version. |
| FirewallSafety.NeverResultZero | kernel/src/bogon.c:177-183 | In every reachable state no bogon lookup has looked at an unmarked node of depth 32, so the result 0 is never returned. |
| FirewallSafety.WorkUpdates | kernel/src/hcf.c:123-187 | In the composed system, work is a map update, and the child pointers end before depth 24 if and only if the key was unknown. |
| FirewallSafety.DeliveryKeepsLearning | src/nl/hcf.cpp:46-51 | The delivery of one announcement loses no known /24 and keeps stored pairs consistent. |
| FirewallSafety.LearnAfterReplay | src/nl/hcf.cpp:63-89 | After a replay every known /24 is in the store, with the hop count that its TTL stands for. |
| FirewallRuns.VerdictOfRun | kernel/src/hooks.c:66-92 | In every run a finished packet was dropped if and only if it is IPv4 TCP and is covered by one whole bogon list, or the flag was set and in one whole map its /24 was unknown or more than 2 hops away; list, flag and map were current, in this order, at moments after its arrival. |
| FirewallRuns.VerdictsFrozen | kernel/src/hooks.c:86-110 | While the flag stays set, once no learn hook that read it as clear and no task is left, the verdict depends on source and TTL alone until a replay, a load or a flag change. |
| FirewallRuns.QuietRun | kernel/src/hooks.c:105-110 | During that time the list and the map stay what they were. |
| FirewallHistory.FlagOfRun | kernel/src/state.c:88-103 | In every run the flag is what the last command made it, and clear before the first. |
| FirewallHistory.ListOfRun | kernel/src/bogon.c:140-144 | In every run the current list is that of the last load, and there is none before the first. |
| FirewallHistory.HooksConserved | kernel/src/hooks.c:105-109 | The learn hooks under way are those that read the flag as clear and have not queued their task. |
| FirewallHistory.NoLearningUnderAttack | kernel/src/hooks.c:105-107 | While the flag is set no hook starts to learn: what is queued comes from hooks that were under way. |
| FirewallHistory.StoreKeeps | src/nl/hcf.cpp:46-51 | What is stored for an address stays for the rest of the run. |
| FirewallHistory.StoreIsFirstDelivery | src/nl/hcf.cpp:46-51 | An address is stored if and only if it has been delivered, and with the values of the first delivery. |
| FirewallHistory.NewsConserved | kernel/src/hcf.c:174-175 | Announcements under way and delivered make up exactly those of the tasks whose /24 was unknown when they were run, with hc = initial(ttl) - ttl. |
| FirewallHistory.EachNewsOnce | kernel/src/hcf.c:174-175 | Between two replays each /24 that becomes known is announced exactly once, and no other is. |
| FirewallHistory.RowsConserved | src/nl/hcf.cpp:63-89 | Rows are replayed as they were read, each reading at most once. |
| FirewallHistory.BaseOfRun | kernel/src/hcf.c:330 | What counts as known before is what was known right after the last replay. |
| FirewallRuns.KnownIsBacked | kernel/src/hcf.c:167-175 | In every run every known /24 is in the store or announced and under way, with hc = initial(ttl) - ttl. |
| FirewallRuns.AnnouncedOnce | kernel/src/hcf.c:174-175 | Since the last replay every newly known /24 has been announced exactly once and no other has. |
| FirewallRuns.ReplayKeepsExactly | src/nl/hcf.cpp:63-89 | In every run, a /24 is known after a replay if and only if the store named it when the rows were read, and then with the values of one of its rows then. |
| FirewallRuns.ReplayForgetsNothing | src/nl/hcf.cpp:63-89 | A replay forgets nothing if and only if the store, when the rows were read, named every /24 that is known when they are replayed. |
| FirewallRuns.ReplayNeverForgets | src/nl/hcf.cpp:63-89 | A replay of rows that were read while nothing was under way keeps every /24 known then, however much later it arrives. |
| ReplayLoss.ReplayForgets | src/nl/hcf.cpp:63-89 | For every sighting, a complete run in which its /24 is known and stored before a replay and unknown after it. |
| FirewallRuns.AlwaysRooted | kernel/src/hcf.c:46-51 | The hop-count trie always has a root. |
| FirewallRuns.WorkDrains | kernel/src/hcf.c:123-187 | Between replays the map is what the executed work items, taken in mutex order, make of it, whatever else happens. |
| FirewallRuns.TasksConserved | kernel/src/hcf.c:236-251 | No queued task is lost or run twice: over any stretch of a run, what is queued at the end and what was run make up what was queued at the start and what was added. |
| FirewallRuns.QueueDrained | kernel/src/hcf.c:236-251 | Whenever the queue is empty, the known /24s are those of any earlier moment since the last replay and those of the work queued then or since, in whatever order it was done. |
| FirewallProgress.PacketNeverStuck | kernel/src/bogon.c:149-184 | In every reachable state a packet without a verdict has a step to take: the nodes its lookups ask for are always allocated. |
| FirewallProgress.PacketStepCounts | kernel/src/hcf.c:204-234 | Each step of a packet brings its verdict nearer. |
| FirewallProgress.PacketIsAlone | kernel/src/hooks.c:66-92 | A step of one packet leaves every other packet, and every other lookup, exactly as it was. |
| FirewallProgress.OtherPacketsLeaveIt | kernel/src/hooks.c:66-92 | So it changes neither the phase of another packet nor the steps that one has left. |
| FirewallProgress.VerdictWithin | kernel/src/hooks.c:66-92 | Wait-freedom: in every run a packet has its verdict after at most 96 steps of its own, whatever publications, replays, loads, frees and other packets come in between. |
| FirewallTries.StepProjects | kernel/src/hooks.c:66-92 | Each step of the filter is, for each trie, one step of its reclamation system, two, or none. |
| FirewallTries.HcfRuns | kernel/src/hcf.c:71-234 | In every run of the filter the hop-count trie goes through a run of the reclamation system, so all that is proved of those runs holds of it. |
| FirewallTries.BogonRuns | kernel/src/bogon.c:140-184 | The same for the bogon trie. |
| FirewallTries.EveryLookupHasItsPacket | kernel/src/hcf.c:204-234 | In every run each lookup that is running is that of a packet in the middle of it: no early exit leaves one behind. |
| FirewallTries.NobodyLooksOnceAllAreDone | kernel/src/hcf.c:232-233 | Once all packets have their verdicts no lookup runs, so reclamation waits for nobody. |
| FirewallInputs.CommandsAccepted | kernel/src/state.c:88-103 | In every state every flag command, packet, learning and delivery is accepted. |
| FirewallInputs.LoadAccepted | kernel/src/bogon.c:102-147 | In every state every well-formed prefix list can be loaded. |
| FirewallInputs.WorkAccepted | kernel/src/hcf.c:123-187 | In every state every queued task can be run. |
| FirewallInputs.ReplayAccepted | kernel/src/hcf.c:272-334 | In every state all rows under way can be replayed. |
| FirewallInputs.StoreReadAccepted | src/nl/hcf.cpp:63-89 | In every state the store can be read. |
| FirewallSafety.BootedIsInit | kernel/src/state.c:25-67 | The state after module load is an initial state, so runs exist. |

## Left out

- Allocation failure: every allocation succeeds (kernel/src/hcf.c:139, 151, 162, 318 and kernel/src/bogon.c:128 do not
  check the new node).
- Malformed commands: prefix lengths are at most 32 and the declared number of prefixes is the number of entries;
  netlink attributes are already decoded; a history entry has its address.
- The log calls after the mutex is dropped (kernel/src/hcf.c:174-179) read the new leaf outside the lock; no claim is
  made about the memory safety of those reads.
- Delivery and insertion: an announcement under way is delivered sooner or later or stays under way, and an insert
  never fails; lost multicast messages are not modelled.
- Memory ordering: `rcu_assign_pointer` and `rcu_dereference` are taken at their word.
- Module start, registration of hooks and teardown (kernel/src/mod.c, kernel/src/state.c:25-76).
- Freeing the nodes of a bogon tree as heap code (kernel/src/bogon.c:71-100): `BogonTree` stops at handing the tree
  over; that the free is safe is proved in `Reclaim`.
- Message capacity in `process_rb_page`: every attribute put succeeds; after a failed put the code cancels a nest and
  still ends it (kernel/src/log/packet_filter.c:234-238).
- PacketLog.ProcessRbPage: takes a page at data offset 0 whose `commit` is a plain byte count without flag bits, and
  requires `PacketLog.NeverStalls`, without which the loop does not end.
- The ring-buffer writer, timers, per-CPU counters and the flush trigger.
- Decoding of the packet log in user space, the database, sockets, the command line, byte-order conversion and the
  formatting of addresses.
- IPv6 tables and generated SQL headers, which hold no logic.

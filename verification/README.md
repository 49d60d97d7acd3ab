# Verified model of the enclave flow table

OFTonSGX moves the flow table of an Open vSwitch switch into an SGX enclave. This project models
its logic in Dafny and proves what the rest of the switch relies on.

- **Classifier** (`Bits`, `Flow`, `Match`, `Tables`, `TableUpdates`, `Classifier`, `Queries`, `Runs`).
  Flows have 46 words of 32 bits and a sparse form of two bitmaps and the nonzero words. Rules sit in
  one sub-table per mask, sub-tables in a list by descending maximum priority. The class updates that
  structure in place; every operation is tied to the plain set of stored rules, and lookup to "take
  the best match of all".
- **Translation and revalidation** (`Xlate`, `Emissions`, `Translator`, `Tags`, `Revalidation`, `TagTie`).
  Action translation as recursive functions, what they send and where they look, and the in-place code
  that refines them; tags; and a state machine of flow-table changes, invalidations and cached facets,
  with soundness over every run.
- **Eviction** (`HeapSpec`, `Heap`, `HeapKeys`, `EvictionSpec`, `EvictionContent`, `Eviction`). The heap
  on sequences and in place, the eviction index of a table, and the operations of a bridge.
- **Facet counters** (`FacetCounters`, `Facets`). The run-time assertions are `assert` statements; a
  ledger accounts for every packet.
- **Hotcalls** (`Hotcall`, `Arguments`). Requester and poller as interleaved steps on shared memory, and the
  rings of argument cells.
- **Flow cache** (`Cache`), **hash map** (`Masks`, `Hmap`) and **list** (`List`).
- `Options` and `Sequences` hold what several modules share.

`dafny verify dfyconfig.toml` checks everything.

## Results that differ from what the code is meant to do

- Revalidation by tag assumes that a rule can only affect flows it matches. In a table with a catch-all
  in front of one other sub-table this fails: a new rule above the catch-all's priority moves that
  sub-table in front, and changes who wins a tie for flows that the new rule does not match.
  `TagTie.InsertBesideCatchall` proves that this happens if and only if `Revalidation.Flips` holds of the
  sub-tables and the rule, `TagTie.TieEscapesTags` is a concrete case, and the soundness theorem in
  `Revalidation` holds over every run without such an insertion. The same happens when `add_flow` backs
  out of an insertion (`TagTie.BackOutBesideCatchall`).
- `subfacet_uninstall` folds the datapath's figures of a slow-path flow into the facet, although every
  packet of such a flow has been counted when it came up. `Facets.SlowPathRun` credits three packets of
  two; `Facets.Ofproto.ExactBooks` and `Facets.Ofproto.CountedOnceIff` say exactly how far the books are
  off, and when they are right.
- `flow_map_cache_remove_ut_cr` searches by a hash of the first 8 bytes of the rule, while insertion stores
  under the hash of the flow. `Cache.RemovalClearsIff` gives the exact condition under which the rule is
  gone afterwards. A freed entry goes to the back of the list, although a comment says front.
- `ecall_ofproto_evict` reads the unsigned flow limit into an `int`. The bound on the number of rules chosen
  holds if and only if the limit is below 2^31 or nothing is evictable
  (`Eviction.QuotaWithinLimitIff`); the default `UINT_MAX` makes every evictable rule in a group be chosen.
- `get_fcall` does not check that its slot is free; `Hotcall.FreshSlotIff` says exactly when it is. The rings
  of argument cells run over earlier (`Arguments.ArgumentsIntactIff`).
- `subfacet_destroy_batch` drops the statistics it has just been given
  (`Facets.Ofproto.DestroyBatch`).

## Model

| member | source | states |
|---|---|---|
| `Bits.PopcountOfLowBits` | OFTonSGX/trusted/lib/flow.c:155-158 | for every word and every position, the popcount of the word masked with `(1 << k) - 1` is the number of 1-bits below `k` |
| `Bits.ZeroRightmostBits` | OFTonSGX/trusted/lib/util.h:221-225 | `x & (x - 1)` clears the lowest 1-bit and no other |
| `Bits.RawCtzBits` | OFTonSGX/trusted/lib/util.h:199-203 | `raw_ctz` is the position of the lowest 1-bit |
| `Flow.MiniflowGet` | OFTonSGX/trusted/lib/flow.c:144-162 | the stored word found by rank is the word of the expanded flow at that offset, zero where no bit is set |
| `Flow.MiniflowInit` | OFTonSGX/trusted/lib/flow.c:79-107 | every flow has a well-formed sparse form, whose expansion is the flow |
| `Flow.Canonical` | OFTonSGX/trusted/lib/flow.c:205-217 | well-formed sparse forms with equal expansions are equal, so the form is canonical |
| `Flow.MiniflowEqual` | OFTonSGX/trusted/lib/flow.c:205-217 | true if and only if the expanded flows are equal |
| `Flow.FlowUnionWithMiniflow` | OFTonSGX/trusted/lib/flow.c:15-29 | ors the expansion into the array, word by word, and nothing else |
| `Flow.MiniflowExpand` | OFTonSGX/trusted/lib/flow.c:136-141 | yields the expansion |
| `Flow.MiniflowEqualInMinimask` | OFTonSGX/trusted/lib/flow.c:221-243 | true if and only if the two expansions agree on every bit of the mask |
| `Flow.MiniflowEqualFlowInMinimask` | OFTonSGX/trusted/lib/flow.c:247-270 | the same for a sparse form against a plain flow |
| `Flow.MiniflowHashInMinimask` | OFTonSGX/trusted/lib/flow.c:288-309 | the hash of the sparse form is one function of the expansion, the mask and the basis |
| `Flow.FlowHashInMinimask` | OFTonSGX/trusted/lib/flow.c:316-336 | the hash of the plain flow is the same function, so the two hash forms coincide |
| `Flow.HashTurn` | OFTonSGX/trusted/lib/flow.c:300-308 | one turn of the loop over a map mixes in exactly the next masked word |
| `Flow.HashIsMixed` | OFTonSGX/trusted/lib/flow.c:288-336 | the hash mixes in the nonzero masked words in order, and then their length in bytes |
| `Flow.HashAgrees` | OFTonSGX/trusted/lib/flow.c:288-336 | flows that agree under a mask have one hash under it |
| `Flow.MinimaskHasExtra` | OFTonSGX/trusted/lib/flow.c:417-440 | false if and only if the first mask has every bit of the second |
| `Flow.MinimaskCombine` | OFTonSGX/trusted/lib/flow.c:358-385 | the result is well formed and expands to the bitwise and of the two masks |
| `Flow.MinimaskIsCatchall` | OFTonSGX/trusted/lib/flow.c:454-462 | true if and only if every word of the mask is zero |
| `Match.OverlapIsCommonFlow` | OFTonSGX/trusted/lib/classifier.c:335-369 | the test under the common mask holds if and only if some flow matches both rules |
| `Match.KeyIsUnique` | OFTonSGX/trusted/lib/classifier.c:635-649 | rules of one mask that match one flow have equal keys, by the match invariant |
| `Match.LooseIsInclusion` | OFTonSGX/trusted/lib/classifier.c:404-411 | a rule matches loosely if and only if every flow it matches is matched by the criteria |
| `Match.ClsRuleIsLooseMatch` | OFTonSGX/trusted/lib/classifier.c:404-411 | decides that relation |
| `Match.ClsRuleInit` | OFTonSGX/trusted/lib/classifier.c:57-63 | the rule made from a match satisfies the match invariant |
| `Tables.HeadIsBest` | OFTonSGX/trusted/lib/classifier.c:635-649 | the head of the list that `find_match` finds has the highest priority among the rules of the sub-table that match |
| `Tables.LookupIsBest` | OFTonSGX/trusted/lib/classifier.c:247-281 | the early-exit scan over well-formed sub-tables finds nothing if and only if no stored rule matches, and else a match of maximum priority over all stored matches |
| `Tables.LookupBitsSuffice` | OFTonSGX/trusted/lib/classifier.c:254-280 | a flow that agrees on the accumulated bits has the same lookup result, hit or miss |
| `Tables.LookupIsFirst` | OFTonSGX/trusted/lib/classifier.c:254-280 | of tied matches the lookup returns the one in the earliest sub-table |
| `Tables.VisitsUntilSettled` | OFTonSGX/trusted/lib/classifier.c:254-280 | the scan visits each sub-table until a match found has at least the maximum priority of the next, and not beyond |
| `Tables.LookupBitsAre` | OFTonSGX/trusted/lib/classifier.c:254-280 | the bits accumulated are those given and those of the masks of the sub-tables visited, and no others |
| `Classifier.Classifier.FindTable` | OFTonSGX/trusted/lib/classifier.c:507-518 | the sub-table of the mask, or none if there is none |
| `Classifier.Classifier.FindEqual` | OFTonSGX/trusted/lib/classifier.c:651-661 | the list with the given key, if there is one: looking at one hash value misses nothing |
| `Classifier.Classifier.FindMatch` | OFTonSGX/trusted/lib/classifier.c:635-649 | the head of the one list whose key the flow matches under the mask |
| `Classifier.Classifier.UpdateTablesAfterInsertion` | OFTonSGX/trusted/lib/classifier.c:554-585 | raises the maximum, and moves the sub-table just past those that are no longer larger; order kept, no other sub-table touched |
| `Classifier.Classifier.UpdateTablesAfterRemoval` | OFTonSGX/trusted/lib/classifier.c:596-633 | lowers the count or rescans the maximum, and moves the sub-table behind those that are now larger; order kept, no other sub-table touched |
| `Classifier.Classifier.InsertRule` | OFTonSGX/trusted/lib/classifier.c:664-711 | puts the rule at its place in the strictly descending list of its key, in place of one with the same priority if there is one; maximum and count stay exact |
| `Classifier.Classifier.Replace` | OFTonSGX/trusted/lib/classifier.c:176-193 | keeps every invariant; the stored rules become the old ones without the identical one, plus the new one; returns just the displaced rule; counts exact; sub-tables change places only if the new rule lifts its own over lower ones |
| `Classifier.Classifier.Insert` | OFTonSGX/trusted/lib/classifier.c:201-206 | the assertion that nothing is displaced holds, when no identical rule is stored |
| `Classifier.Classifier.Remove` | OFTonSGX/trusted/lib/classifier.c:211-237 | keeps every invariant and removes exactly the rule; a sub-table goes with its last rule; sub-tables change places only if that of the rule sinks below higher ones |
| `Classifier.Classifier.Lookup` | OFTonSGX/trusted/lib/classifier.c:247-281 | returns null if and only if no stored rule matches, else a match of maximum priority; accumulates exactly the bits of the sub-tables it visited |
| `Classifier.Classifier.FindRuleExactly` | OFTonSGX/trusted/lib/classifier.c:286-313 | finds the identical stored rule, or there is none |
| `Queries.RuleOverlaps` | OFTonSGX/trusted/lib/classifier.c:335-369 | true if and only if some stored rule has the target's priority and some flow matches both |
| `Queries.CursorInit` | OFTonSGX/trusted/lib/classifier.c:446-453 | replacing a catch-all target by null does not change which rules are wanted |
| `Queries.SearchTable` | OFTonSGX/trusted/lib/classifier.c:422-443 | the first list of the sub-table with a wanted rule, or there is none |
| `Queries.CursorFirst` | OFTonSGX/trusted/lib/classifier.c:456-470 | the first wanted rule of the whole visit |
| `Queries.CursorNext` | OFTonSGX/trusted/lib/classifier.c:474-505 | the wanted rule that follows, at every position of the visit |
| `Queries.CursorVisits` | OFTonSGX/trusted/lib/classifier.c:446-505 | the visit lists exactly the loosely matching stored rules, each once; all of them with a null or catch-all target |
| `Queries.Collect` | OFTonSGX/trusted/lib/classifier.c:446-505 | first-and-next iteration terminates and produces that visit |
| `Runs.RunThenLookup` | OFTonSGX/trusted/lib/classifier.c:176-281 | over any run of replace, insert and remove on a fresh classifier, the rule count and the result of a lookup are those of a plain set of rules |
| `Runs.LookupTwice` | OFTonSGX/trusted/lib/classifier.c:254-280 | two flows that agree on the accumulated wildcards get one result from the real lookup |
| `Runs.IdenticalIsUnique` | OFTonSGX/trusted/lib/classifier.c:286-313 | a classifier never stores two identical rules |
| `Xlate.XTable` | OFTonSGX/ovs_modified/ovs_sgx/ofproto-dpif.c:6420-6488 | terminates by the measure (64 - recurse, tables left, actions left) and leaves depth, bridge and table as they were |
| `Xlate.ActionsNeverFail` | OFTonSGX/ovs_modified/ovs_sgx/ofproto-dpif.c:7193-7226 | when goto-table only ever names a later table, the assertion on its order never fails in any translation |
| `Xlate.TranslationDetermined` | OFTonSGX/ovs_modified/ovs_sgx/ofproto-dpif.c:6420-6488 | a translation depends on the tables only through the lookups in its trace: if those are still valid, so is the whole outcome |
| `Emissions.OutputEmits` | OFTonSGX/ovs_modified/ovs_sgx/ofproto-dpif.c:6202-6340 | an ordinary port is sent just the flow in hand, a closed one nothing; through a patch port every packet is asked for by a rule looked up there |
| `Emissions.ActionsEmit` | OFTonSGX/ovs_modified/ovs_sgx/ofproto-dpif.c:6964-7238 | packets sent are never taken back; each goes out of an ordinary port that an output action names: one of those given, in this bridge, or one of a rule looked up since in the bridge it leaves |
| `Emissions.StraightLine` | OFTonSGX/ovs_modified/ovs_sgx/ofproto-dpif.c:6964-7238 | without resubmission, goto-table and patch ports, exactly the ports listed are sent to, in order, each with the flow as the preceding actions have made it, up to exit or an expired TTL |
| `Emissions.ExitStops` | OFTonSGX/ovs_modified/ovs_sgx/ofproto-dpif.c:6964-7238 | after an exit nothing more is done, in any table |
| `Emissions.TableLooks` | OFTonSGX/ovs_modified/ovs_sgx/ofproto-dpif.c:6420-6468 | below the limit of 64 the lookup is made in the table and with the port given, and the rule found or the miss rule runs on the flow as it was; at the limit nothing happens |
| `Emissions.ResubmitLooks` | OFTonSGX/ovs_modified/ovs_sgx/ofproto-dpif.c:6470-6488 | a resubmission looks up with the port and table it names, or the input port and the current table |
| `Emissions.GotoLooks` | OFTonSGX/ovs_modified/ovs_sgx/ofproto-dpif.c:7193-7226 | goto-table looks up the flow in hand in the later table it names, and the actions after it are not run |
| `Emissions.PatchEnters` | OFTonSGX/ovs_modified/ovs_sgx/ofproto-dpif.c:6228-6282 | a packet enters table 0 of the peer's bridge by the peer's port; flow and bridge are restored; what STP blocks is not sent |
| `Emissions.TranslationSends` | OFTonSGX/ovs_modified/ovs_sgx/ofproto-dpif.c:7412-7439 | a translation starts in table 0; special, refused and blocked packets send nothing; straight-line actions send exactly what they list; every packet sent is asked for |
| `Translator.XlateCtx.XlateTableAction` | OFTonSGX/ovs_modified/ovs_sgx/ofproto-dpif.c:6420-6488 | refines the functional translation; on return recurse, table_id, ctx->rule and every evictable flag are as on entry, also when a rule resubmits to itself |
| `Translator.XlateCtx.ComposeOutputAction` | OFTonSGX/ovs_modified/ovs_sgx/ofproto-dpif.c:6202-6282 | refines the functional form on closed, plain and patch ports, with special packets, refused packets and STP at the peer; restores flow and bridge; `Emissions` says what that form sends |
| `Translator.XlateCtx.EnterTable` | OFTonSGX/ovs_modified/ovs_sgx/ofproto-dpif.c:7193-7226 | goto-table puts back the flag of the rule it leaves and saves that of the rule it enters |
| `Translator.XlateCtx.DoXlateActions` | OFTonSGX/ovs_modified/ovs_sgx/ofproto-dpif.c:6964-7238 | the loop with goto refines the functional form, and every evictable flag is put back |
| `Translator.TranslateFlow` | OFTonSGX/ovs_modified/ovs_sgx/ofproto-dpif.c:7412-7439 | a whole translation computes the functional result, also for special, refused and STP-blocked packets, leaves the flags alone, and fails no assertion on well-formed tables; `Emissions` says what that result sends |
| `Tags.CalculateTag` | OFTonSGX/trusted/cls_rule/cls-rule.c:88-113 | the tag is the hash of the flow under the mask, and 0 for a catch-all |
| `Tags.ConstructTag` | OFTonSGX/ovs_modified/ovs_sgx/ofproto-dpif.c:5786-5816 | a rule that takes over the tag of its victim has the tag it would have been given |
| `Tags.MatchSharesTag` | OFTonSGX/trusted/cls_rule/cls-rule.c:88-113 | a rule and every flow it matches have one tag under the rule's mask |
| `Tags.UpdateTaggable` | OFTonSGX/trusted/oftable/oftable.c:121-156 | the pointers, and whether they changed: `other` is the one sub-table that is not a catch-all, if there are at most two and just one is not; `catchall` is a catch-all sub-table, if there are at most two |
| `Tags.TaggableIff` | OFTonSGX/trusted/oftable/oftable.c:121-156 | exactly when there is such a pointer, and to which sub-table, said of the list alone |
| `Tags.TaggableAlone` | OFTonSGX/trusted/oftable/oftable.c:121-156 | a sub-table alone in its table is tagged unless it is a catch-all |
| `Tags.TaggableOnlyOther` | OFTonSGX/trusted/oftable/oftable.c:121-156 | a table that can be tagged has one sub-table besides catch-alls |
| `Tags.TagTheFlow` | OFTonSGX/ovs_modified/ovs_sgx/ofproto-dpif.c:6351-6394 | the facet's tags afterwards are the least that cover what its lookup needs and all earlier tags |
| `Revalidation.StepKeepsInv` | OFTonSGX/ovs_modified/ovs_sgx/ofproto-dpif.c:8198-8226 | each of insert, replace, delete, modify, invalidate, install, drop and revalidate keeps the invariant |
| `Revalidation.RunKeepsInv` | OFTonSGX/ovs_modified/ovs_sgx/ofproto-dpif.c:8198-8226 | the invariant holds in every state of every run |
| `Revalidation.InvalidatedTagIsHeld` | OFTonSGX/ovs_modified/ovs_sgx/ofproto-dpif.c:8198-8226 | when only a rule's tag is invalidated, every facet with a lookup the rule matches holds that tag |
| `Revalidation.InvalidationIsLocalIff` | OFTonSGX/ovs_modified/ovs_sgx/ofproto-dpif.c:8198-8226 | an invalidation leaves need_revalidate alone, and then adds just the rule's tag, if and only if no revalidation is due, the rule has a tag, the pointers are up to date, and the table has at most two sub-tables, just one of them not a catch-all |
| `Revalidation.RevalidationIsSound` | OFTonSGX/ovs_modified/ovs_sgx/ofproto-dpif.c:8198-8226 | over every run without an insertion that `Flips` sub-tables under a tag: with nothing pending, a facet with a lookup that would now differ in rule or actions is marked by need_revalidate or by its tags |
| `Revalidation.UnflaggedFacetIsExact` | OFTonSGX/ovs_modified/ovs_sgx/ofproto-dpif.c:5184-5281 | end to end: a facet that is not marked would be translated to exactly the same outcome now |
| `Revalidation.TranslationIsCurrent` | OFTonSGX/ovs_modified/ovs_sgx/ofproto-dpif.c:7423-7436 | the lookups recorded by a translation are those the tables give when it is made |
| `Revalidation.LookupDetermined` | OFTonSGX/trusted/lib/classifier.c:247-281 | if the same rules match a flow before and after a change, its lookup differs only if two sub-tables with tied best matches have changed places |
| `Revalidation.TradedFlips` | OFTonSGX/trusted/lib/classifier.c:554-585 | in a tagged table an insertion makes such sub-tables change places only if it `Flips` them |
| `Revalidation.NotTraded` | OFTonSGX/trusted/lib/classifier.c:596-633 | a removal never does |
| `Revalidation.TranslateAndTag` | OFTonSGX/ovs_modified/ovs_sgx/ofproto-dpif.c:6351-6394 | a translation whose lookups are tagged one by one makes a facet with current lookups that holds all its tags |
| `Revalidation.ReplaceStep` | OFTonSGX/trusted/lib/classifier.c:176-193 | the in-place classifier makes the insertion step of the state machine |
| `Revalidation.RemoveStep` | OFTonSGX/trusted/lib/classifier.c:211-237 | and the removal step |
| `Revalidation.Backer.RuleInvalidate` | OFTonSGX/ovs_modified/ovs_sgx/ofproto-dpif.c:8198-8226 | the in-place code makes the invalidation step of the state machine |
| `TagTie.InsertBesideCatchall` | OFTonSGX/ovs_modified/ovs_sgx/ofproto-dpif.c:8147-8190 | the exact set of lookups that an insertion beside a catch-all changes, of flows the rule does not match; there are any if and only if the insertion `Flips` the sub-tables; the pointers stay the same |
| `TagTie.FlipEscapes` | OFTonSGX/ovs_modified/ovs_sgx/ofproto-dpif.c:8198-8226 | after such an insertion has been invalidated, a facet whose lookup has changed is marked if and only if it happens to hold the rule's tag |
| `TagTie.BackOutBesideCatchall` | OFTonSGX/ovs_modified/ovs_sgx/ofproto.c:4003-4008 | a rule inserted and taken out again without an invalidation leaves exactly the same lookups changed |
| `TagTie.RemoveBesideCatchall` | OFTonSGX/ovs_modified/ovs_sgx/ofproto-dpif.c:8147-8190 | removal never changes it while the sub-table survives |
| `TagTie.TieEscapesTags` | OFTonSGX/ovs_modified/ovs_sgx/ofproto-dpif.c:8198-8226 | a concrete table, rule and flow for which revalidation by tag alone misses a changed facet, when a rule may have the priority of the catch-all |
| `HeapSpec.RootIsMaximal` | OFTonSGX/trusted/lib/heap.h:62-78 | the first node of a heap is a largest one |
| `HeapSpec.InsertIsHeap` | OFTonSGX/trusted/lib/heap.c:67-73 | insertion keeps the order and adds exactly the node |
| `HeapSpec.RemoveIsHeap` | OFTonSGX/trusted/lib/heap.c:77-88 | removal of any node keeps the order, also when the node moved into the hole must rise, and removes exactly that node |
| `HeapSpec.ChangeIsHeap` | OFTonSGX/trusted/lib/heap.c:91-96 | a changed priority keeps the order and every other node |
| `HeapSpec.RebuildAll` | OFTonSGX/trusted/lib/heap.c:141-149 | rebuilding makes a heap of any array, with the same nodes |
| `HeapSpec.PrefixIsHeap` | OFTonSGX/trusted/lib/heap.h:144-148 | dropping the last node keeps the heap |
| `Heap.Heap.SwapNodes` | OFTonSGX/trusted/lib/heap.c:151-165 | swaps two nodes, and each still knows its position |
| `Heap.Heap.FloatUpNode` | OFTonSGX/trusted/lib/heap.c:168-182 | the loop computes the functional form, and tells whether the node moved |
| `Heap.Heap.FloatDownNode` | OFTonSGX/trusted/lib/heap.c:185-206 | the loop computes the functional form |
| `Heap.Heap.InsertNode` | OFTonSGX/trusted/lib/heap.c:67-73 | keeps order, positions and capacity; the nodes become the old ones and the new one |
| `Heap.Heap.RawInsert` | OFTonSGX/trusted/lib/heap.c:106-117 | appends, growing the array when it is full; n never exceeds the capacity |
| `Heap.Heap.RemoveNode` | OFTonSGX/trusted/lib/heap.c:77-88 | keeps order and positions; exactly the node is gone |
| `Heap.Heap.ChangeNode` | OFTonSGX/trusted/lib/heap.c:91-96 | keeps order, positions and nodes |
| `Heap.Heap.Rebuild` | OFTonSGX/trusted/lib/heap.c:141-149 | restores the order after any raw operations |
| `Heap.Heap.Pop` | OFTonSGX/trusted/lib/heap.h:144-148 | takes the last node and keeps the heap |
| `Heap.Heap.Max` | OFTonSGX/trusted/lib/heap.h:134-138 | no node has a higher priority than the one returned |
| `EvictionSpec.ResizeKeeps` | OFTonSGX/trusted/eviction/eviction.c:394-400 | resizing a group puts min(65535, number of its rules) into the top 16 bits of its priority and keeps the heap by size |
| `EvictionSpec.AddKeeps` | OFTonSGX/trusted/eviction/eviction.c:19-34 | adding a rule keeps groups, sizes and hashes in step, and changes no other group |
| `EvictionSpec.RemoveKeeps` | OFTonSGX/trusted/eviction/eviction.c:36-57 | removing a rule keeps them in step too; the group goes with its last rule |
| `EvictionContent.AddContent` | OFTonSGX/trusted/eviction/eviction.c:19-34 | the rule is filed under its hash and priority, and every other filing is unchanged |
| `EvictionContent.RemoveContent` | OFTonSGX/trusted/eviction/eviction.c:36-57 | the filing of the rule is dropped and no other |
| `EvictionContent.ContentFixesGroups` | OFTonSGX/trusted/eviction/eviction.c:295-307 | equal filings mean the same groups with the same rules and sizes |
| `EvictionContent.FirstGroupIsLargest` | OFTonSGX/trusted/eviction/eviction.c:65-76 | the first group visited has at least as many rules as any other, or at least 65535 |
| `EvictionContent.VictimIsWorst` | OFTonSGX/trusted/eviction/eviction.c:59-76 | with all rules evictable, the victim's group has at least as many rules as any other, or at least 65535, and no rule of the group has a higher priority |
| `EvictionSpec.GroupPriorityBits` | OFTonSGX/trusted/eviction/eviction.c:31-33 | the top 16 bits of a group's priority are min(65535, number of rules), the low ones the random bits |
| `Eviction.Bridge.AddRule` | OFTonSGX/trusted/eviction/eviction.c:19-34 | the in-place code keeps the invariant of all tables and files exactly the rule |
| `Eviction.Bridge.RemoveFrom` | OFTonSGX/trusted/eviction/eviction.c:36-57 | the in-place code keeps the invariant and drops exactly the rule's filing; nothing for a rule in no group |
| `Eviction.Bridge.Choose` | OFTonSGX/trusted/eviction/eviction.c:59-76 | null if and only if eviction is off or no grouped rule is evictable, else the first evictable rule in heap order; with all rules evictable, one of highest priority in a group of most rules |
| `Eviction.Bridge.ChooseExcept` | OFTonSGX/trusted/eviction/eviction.c:78-94 | the same choice without the given rule, with the flags as before |
| `Eviction.Bridge.DestroyGroup` | OFTonSGX/trusted/eviction/eviction.c:344-354 | pops every rule of the group, which then has no group; the other groups are untouched |
| `Eviction.Bridge.Disable` | OFTonSGX/trusted/eviction/eviction.c:96-113 | no group is left and no rule is in one |
| `Eviction.Bridge.Enable` | OFTonSGX/trusted/eviction/eviction.c:115-138 | no change if and only if the fields are the same; else a fresh index with the new fields and basis |
| `Eviction.Bridge.PickFrom` | OFTonSGX/trusted/eviction/eviction.c:203-227 | chooses distinct evictable rules of the table, exactly min(excess, evictable rules in groups) of them |
| `Eviction.Bridge.AddBack` | OFTonSGX/trusted/eviction/eviction.c:230-239 | files every chosen rule again under its group and priority |
| `Eviction.Bridge.Evict` | OFTonSGX/trusted/eviction/eviction.c:173-243 | a dry run: distinct rules, table by table, each table's quota exactly; afterwards every table has its filings back; the returned count wraps as size_t does |
| `Eviction.DryRunRestores` | OFTonSGX/trusted/eviction/eviction.c:230-239 | after it every rule has its group id and priority and every group its size |
| `Eviction.QuotaWithinLimitIff` | OFTonSGX/trusted/eviction/eviction.c:198-203 | no more rules are chosen than are over the limit if and only if the limit is below 2^31 or no rule in a group is evictable |
| `Eviction.QuotaExact` | OFTonSGX/trusted/eviction/eviction.c:198-203 | with a limit below 2^31, just min(rules over the limit, evictable rules in groups) are to be chosen |
| `Eviction.UnlimitedMeansAll` | OFTonSGX/trusted/eviction/eviction.c:199-203 | any limit of 2^31 or more, read into an int, makes the loop choose every evictable rule in a group |
| `Hotcall.StepKeepsInv` | OFTonSGX/trusted/hotcall-trusted.c:19-46 | every step of requester or poller keeps the invariant on lock, flags, ring, cursor and ledger |
| `Hotcall.RunKeepsInv` | OFTonSGX/trusted/hotcall-trusted.c:19-46 | it holds in every state of every interleaving |
| `Hotcall.ReturnMeansDone` | OFTonSGX/untrusted/hotcall-untrusted.c:14-44 | when make_hotcall returns, the calls executed are exactly those issued, once each and in order, and the queue is empty |
| `Hotcall.SyncMeansDone` | OFTonSGX/untrusted/app.c:30-36 | over every run: when the last call queued was synchronous and the requester is between calls, all calls issued have been executed, once each and in order |
| `Hotcall.AsyncReturnsAtOnce` | OFTonSGX/untrusted/app.c:30-36 | an asynchronous call, and only such a one, leaves the requester free at once, with the call last on the queue and nothing executed |
| `Hotcall.SeenDoneReturns` | OFTonSGX/untrusted/hotcall-untrusted.c:21-43 | once is_done is set, the next look at it ends the call |
| `Hotcall.NeverTwice` | OFTonSGX/trusted/hotcall-trusted.c:38-43 | at every moment the executed calls are a prefix of the issued ones |
| `Hotcall.NoSharing` | OFTonSGX/untrusted/app.c:30-36 | while the requester fills a slot or appends, the poller neither reads nor changes queue or slots |
| `Hotcall.FreshSlotIff` | OFTonSGX/untrusted/hotcall-untrusted.h:51-62 | the next slot of the ring is not on the queue if and only if fewer than 20 calls are outstanding |
| `Hotcall.MutualExclusion` | OFTonSGX/trusted/hotcall-trusted.c:30-48 | the two never hold the lock at once |
| `Arguments.ArgumentRing.Next` | OFTonSGX/untrusted/hotcall-untrusted.h:64-116 | the value is in the cell returned, and the last 20 values put into the ring are all intact |
| `Arguments.ArgumentsIntactIff` | OFTonSGX/untrusted/hotcall-untrusted.h:64-116 | the arguments of the outstanding calls are all intact if and only if they take at most 20 cells of each ring together |
| `Arguments.ElevenAreTooMany` | OFTonSGX/untrusted/app.c:297-302 | with two cells per call the bound is 10 calls, below the 20 slots of the ring of calls |
| `Hotcall.WaitIsBounded` | OFTonSGX/untrusted/hotcall-untrusted.c:21-43 | a waiting requester sees is_done set after a bounded number of poller steps, whatever the interleaving |
| `Hotcall.NeverStuck` | OFTonSGX/trusted/hotcall-trusted.c:19-46 | a step is possible in every reachable state |
| `FacetCounters.UninstallOk` | OFTonSGX/ovs_modified/ovs_sgx/ofproto-dpif.c:5579-5599 | uninstalling moves the unread packets of a fast-path flow into the facet, all but those not reported; of a slow-path flow it adds what is reported, a second time; the readings are cleared |
| `FacetCounters.ReinstallOk` | OFTonSGX/ovs_modified/ovs_sgx/ofproto-dpif.c:5516-5576 | so does a put with the counters zeroed |
| `FacetCounters.UpdateStatsOk` | OFTonSGX/ovs_modified/ovs_sgx/ofproto-dpif.c:5627-5640 | exactly the given packets and bytes are added to what the facet holds; times of use are the later ones |
| `Facets.Ofproto.PushStats` | OFTonSGX/ovs_modified/ovs_sgx/ofproto-dpif.c:5293-5336 | its three assertions never fail; the rule, and no other, is credited with exactly the unpushed packets and bytes, and its time of use is raised |
| `Facets.Ofproto.FlushStats` | OFTonSGX/ovs_modified/ovs_sgx/ofproto-dpif.c:5025-5057 | its assertions never fail once the readings are cleared; packets, bytes and time of use go to the rule, and the facet's counters are cleared |
| `Facets.Ofproto.RemoveFacet` | OFTonSGX/ovs_modified/ovs_sgx/ofproto-dpif.c:4898-4927 | its assertion never fails; with exact replies the rule is credited with all the facet held, and again with what is reported of its slow-path flows |
| `Facets.RemovalCountsOnceIff` | OFTonSGX/ovs_modified/ovs_sgx/ofproto-dpif.c:5579-5599 | with exact replies, removing a facet counts nothing twice if and only if none of its slow-path flows has counted a packet |
| `Facets.SlowPathRun` | OFTonSGX/ovs_modified/ovs_sgx/ofproto-dpif.c:5579-5599 | a run in which two packets come and the rule is credited with three |
| `Facets.Ofproto.DestroyAt` | OFTonSGX/ovs_modified/ovs_sgx/ofproto-dpif.c:5450-5467 | uninstalls and drops one subfacet |
| `Facets.Ofproto.DestroySubfacet` | OFTonSGX/ovs_modified/ovs_sgx/ofproto-dpif.c:5471-5482 | takes the facet with its last subfacet |
| `Facets.Ofproto.DestroyBatch` | OFTonSGX/ovs_modified/ovs_sgx/ofproto-dpif.c:5484-5508 | all flows of the batch are deleted first; exactly the packets not read before are dropped, nothing is counted twice, and each facet loses just its subfacets in the batch |
| `Facets.Ofproto.Revalidate` | OFTonSGX/ovs_modified/ovs_sgx/ofproto-dpif.c:5184-5281 | keeps the books; only the rule that the facet had is credited, whatever the verdict; with changed actions and exact replies it gets all that the facet held before the facet moves |
| `Facets.Ofproto.ActiveTimeout` | OFTonSGX/ovs_modified/ovs_sgx/ofproto-dpif.c:8306-8332 | all readings are folded in and cleared; with exact replies the facet then holds unpushed all that it held |
| `Facets.Ofproto.DumpedFlow` | OFTonSGX/ovs_modified/ovs_sgx/ofproto-dpif.c:4516-4549 | a fast-path reading is taken over and its difference in packets and bytes added once; other paths change nothing; no other rule is credited |
| `Facets.Ofproto.MissWithoutFacet` | OFTonSGX/ovs_modified/ovs_sgx/ofproto-dpif.c:3911-3964 | the rule, and no other, is credited at once with packets and bytes; a new facet has nothing unpushed |
| `Facets.Ofproto.CreateSubfacet` | OFTonSGX/ovs_modified/ovs_sgx/ofproto-dpif.c:5401-5446 | the subfacet with the key, after one in another facet has been destroyed |
| `Facets.Ofproto.MissWithFacet` | OFTonSGX/ovs_modified/ovs_sgx/ofproto-dpif.c:3811-3906 | the facet receives exactly the packets of the miss, and its flow is installed if the put succeeds |
| `Facets.Ofproto.RuleConstruct` | OFTonSGX/ovs_modified/ovs_sgx/ofproto-dpif.c:5752-5784 | the facets of the replaced rule, and no others, move to the new one with cleared counters; exactly their unpushed packets are dropped |
| `Facets.Ofproto.Upcall` | OFTonSGX/ovs_modified/ovs_sgx/ofproto-dpif.c:386-392 | a slow-path flow counts packets that come up as well |
| `Facets.Ofproto.Traffic` | OFTonSGX/ovs_modified/ovs_sgx/ofproto-dpif.c:384-392 | a fast-path flow counts packets that only the datapath has seen |
| `Facets.Ofproto.ExactBooks` | OFTonSGX/ovs_modified/ovs_sgx/ofproto-dpif.c:5284-5336 | in every state: credited + unpushed + unread + dropped = came + reported of slow-path flows removed by subfacet_uninstall |
| `Facets.Ofproto.CountedOnceIff` | OFTonSGX/ovs_modified/ovs_sgx/ofproto-dpif.c:5579-5599 | nothing is counted twice if and only if no slow-path flow of which packets were reported has been removed by subfacet_uninstall; then credited plus unpushed packets never exceed those that came |
| `Cache.RemovalClearsIff` | OFTonSGX/trusted/cache-trusted.c:72-86 | removal by rule clears the rule from the cache if and only if every entry that holds it is stored under the hash searched and there is at most one |
| `Cache.RemovalMisses` | OFTonSGX/trusted/cache-trusted.c:164-165 | an entry that removal by rule does not find |
| `Cache.FlowCache.constructor` | OFTonSGX/untrusted/cache-untrusted.c:35-75 | a pool of free entries, all in the list, checksum 0 |
| `Cache.FlowCache.Insert` | OFTonSGX/trusted/cache-trusted.c:88-107 | keeps checksum, maps and list; takes the entry used longest ago |
| `Cache.FlowCache.RemoveRule` | OFTonSGX/trusted/cache-trusted.c:72-86 | keeps checksum, maps and list; frees one findable entry and puts it at the back; exact condition for clearing the rule |
| `Cache.FlowCache.GetEntry` | OFTonSGX/untrusted/cache-untrusted.c:19-33 | null if and only if no live entry has the hash; the entry found becomes the last to be reused |
| `Cache.FlowCache.Flush` | OFTonSGX/trusted/cache-trusted.c:118-127 | no live entry, both maps empty, checksum 0 |
| `Cache.FlowCache.IsValid` | OFTonSGX/trusted/cache-trusted.c:15-31 | true if and only if the sum over the live entries, which others could have changed, agrees with the running checksum; it does after every operation |
| `Cache.ChangeSeenIff` | OFTonSGX/trusted/cache-trusted.c:15-45 | the sum shows that one entry has been filled, freed or altered if and only if the entry's hash has changed |
| `Masks.CalcMask` | OFTonSGX/trusted/lib/hmap.c:131-149 | of the form 2^k - 1, at least half the capacity, at least 3 when not 0, and the least such |
| `Masks.MaskTest` | OFTonSGX/trusted/lib/hmap.c:80-81 | the first assertion of resize holds for every such mask |
| `Hmap.Map.InsertFast` | OFTonSGX/trusted/lib/hmap.h:184-192 | adds exactly the node, on the chain its hash selects |
| `Hmap.Map.Resize` | OFTonSGX/trusted/lib/hmap.c:73-127 | its assertions hold; every node is kept and on its new chain; nothing changes if buckets cannot be allocated |
| `Hmap.Map.Insert` | OFTonSGX/trusted/lib/hmap.h:196-203 | adds exactly the node, and n / 2 <= mask afterwards unless allocation failed |
| `Hmap.Map.Remove` | OFTonSGX/trusted/lib/hmap.h:207-216 | removes exactly the node |
| `Hmap.Map.Replace` | OFTonSGX/trusted/lib/hmap.h:225-236 | exchanges exactly the two nodes; the new one takes the hash |
| `Hmap.Map.FirstWithHash` | OFTonSGX/trusted/lib/hmap.h:249-253 | null if and only if no node of the whole map has the hash |
| `Hmap.Map.First` | OFTonSGX/trusted/lib/hmap.h:306-310 | the first node of the visit |
| `Hmap.Map.Next` | OFTonSGX/trusted/lib/hmap.h:319-325 | the node that follows in the visit |
| `Hmap.Map.VisitAll` | OFTonSGX/trusted/lib/hmap.h:130-133 | visits every node exactly once and ends |
| `List.Insert` | OFTonSGX/trusted/lib/list.c:34-42 | on a ring, the node is last before the given one, all else in order |
| `List.PushBack` | OFTonSGX/trusted/lib/list.c:75-79 | the node is last |
| `List.PushFront` | OFTonSGX/trusted/lib/list.c:67-71 | the node is first after the head |
| `List.Splice` | OFTonSGX/trusted/lib/list.c:46-63 | moves a run of nodes within a ring, including the one-node moves of the classifier |
| `List.SpliceAcross` | OFTonSGX/trusted/lib/list.c:46-63 | moves a run of nodes between rings |
| `List.Replace` | OFTonSGX/trusted/lib/list.c:83-90 | the node takes the place of another, also of one alone in its ring |
| `List.Remove` | OFTonSGX/trusted/lib/list.c:106-112 | the ring closes over the gap; a node alone stays a ring |
| `List.NextPrevInverse` | OFTonSGX/trusted/lib/list.c:20-24 | next and prev are inverse on every ring |
| `List.Size` | OFTonSGX/trusted/lib/list.c:158-168 | the number of nodes besides the head |
| `List.TestsAreExact` | OFTonSGX/trusted/lib/list.c:171-189 | the pointer tests for empty and short lists are exact |

## Left out

- Revalidation.RevalidationIsSound: leaves out the insertions that `Revalidation.Flips` describes when the rule has a tag and nothing has yet forced a full revalidation, because it is false for them (`TagTie.FlipEscapes`); the back-out of `add_flow` is not a step of the runs.
- The `facet_revalidate` calls that `rule_destruct` makes before it invalidates the deleted rule: a facet installed while a change is pending is only known to be tagged against the pointers of that moment.
- Translator.TranslateFlow: does not model the learn action, fragment handling, bonding, mirrors, MPLS, sampling, and how individual field actions, tunnels and VLAN devices change a packet; they are parameters of the environment or absent.
- Full megaflow soundness of translation; wildcard soundness is proved for `classifier_lookup`.
- Hash values: the mixing function, `tag_create_deterministic`, the group hash and the cache entry hash are arbitrary functions.
- The hash maps inside the classifier: a sub-table's map is a sequence of lists searched by stored hash, and the map of sub-tables is searched through the list; `Hmap` proves separately that a bucket search misses nothing.
- Pointer identity: sub-tables have addresses, rules and nodes have ids; freed memory and reuse of addresses within one step are not modelled.
- Eviction.Bridge.Evict: the heaps of the index are sequences here, with the operations that `Heap` proves its arrays to compute; the random low 16 bits are arbitrary; the two arrays of priorities are as wide as needed, so the narrowing of a table id to 8 bits is not modelled.
- Evaluation of `eviction_group_hash_rule` on the fields of a flow; the group id is an arbitrary function of the configured fields, the basis and the rule.
- Hmap.Map.Resize: chains are sequences, not linked nodes; the page allocator is a flag that says whether allocation succeeds.
- Facets.Ofproto.Revalidate: facets and subfacets are values in a sequence, not linked objects; 64-bit overflow of the counters, byte totals in the ledger, NetFlow and mirrors are not modelled; credit given to other rules by resubmission is not counted.
- Handlers that run inside others through `run_fast_rl`: top-level handlers are atomic.
- Hotcall.ReturnMeansDone: assumes sequential consistency, an atomic lock, one requester, and at most 20 outstanding calls; arguments are values, which is right while the bound of `Arguments.ArgumentsIntactIff` is kept; the sleep path of the TIMEOUT build and the contents of the executed calls are not modelled.
- Cache.FlowCache.Insert: the lock is taken as held throughout, although the code releases it between taking an entry and filling it; the rule is never null, as in its only caller.
- TLS termination, certificate and controller programs, benchmarks, argument marshalling and the dispatch switch of the enclave: plumbing without a property of this kind.
- `heap-b.c`, an older copy of the heap.

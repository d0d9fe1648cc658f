# chaos-engine kernel in Dafny

This project models the data side of chaos-engine, an entity–component–system (ECS) kernel written in TypeScript, and proves properties of the model. Entities are numeric ids. Components live in one sparse-set store per component name. Systems do not change the world directly: each returns an *intention*, a list of proposed changes, which the world then applies in order.

The model covers:

- **The sparse-set component store** (`store.dfy`, class `SparseComponentStore`). It has three parallel arrays and a live count. `insert` appends or overwrites, `remove` swaps the last live entry into the hole, and `handleChange` dispatches add, set, update and delete. The store's state is also a value (`StoreState`), and every method is proved to produce `InsertSpec`, `RemoveSpec` or `HandleChangeSpec` of its old state.
- **Dependency depths and batches** (`dependencies.dfy`). This covers `filterDependencies`, the dependency graph built with `addNode` and `addDependency`, the queue loop of `findDepths`, and `batchByDepths`. `findDepths` is proved to give every node the length of its longest in-scope dependency chain, so every dependency runs in an earlier batch. The hash of `hashDependencies` is a parameter.
- **Entity references and change records** (`entity.dfy`, `change.dfy`). An entity reference is a real id or an *unborn* offset, meaning an entity the proposal has reserved but the world has not yet created. A reference marked real whose id is undefined, which `ID.real(undefined)` makes, is a third kind. Offsets can be shifted, resolved to real ids, and stripped to numbers.
- **Intentions** (`intention.dfy`, class `Intention`). These hold a pending change list and a reservation counter, with `createID`, `addChange`, `merge`, `replaceAllUnborn`, `extractRealChanges` and every builder method.
- **The world** (`world.dfy`, class `World`). This covers entity allocation from the revival stack and the max-id counter, `query`, and entity deletion. It also covers `applyChange` (raw-change logging, then dispatch to components, resources or events), the implicit `id` store, `fixIntentionIds` and `applyIntention`, and the stage-batch builders. The nested-record helpers of `util.ts` are in `util.dfy`.
- **The core plugins**, as functions from the world to an optional intention:
  - the change-event systems (`change_events.dfy`);
  - entity-id recycling and max-id tracking (`id_recycling.dfy`);
  - the stage-batch cache (`stage_batches.dfy`);
  - the older `plugins/core/changes.ts` (`legacy_changes.dfy`), where it differs from the current systems. Its `addChangeEvents`, `executeEntities` and `resetRawChangesIndex` are line for line those of `rawChangeEvents.ts` and `recycling.ts`, so the same members model them.
- **The legacy `SystemResults` list** (`system_results.dfy`). This is a persistent builder of changes whose event names use the `--` divider.

The reserved key strings are in `keys.dfy`. The key table of the source, `src/lib/keys.ts`, is not part of this model. The strings are the documented reserved keys, except `stage-changes`: the modelled code only names it `STAGE_CHANGES`, and its string is assumed.

User callbacks are not modelled as code. An `update` function carries a tag, and a `user: (nat, Value) -> Value` parameter says what each tag does. The one closure the kernel builds itself, the revival stack's `stack.delete` loop, is modelled as it is (`ForgetIds`).

## Model

| member | source | states |
|---|---|---|
| Util.KeyFilter | src/lib/util.ts:19-30 | The elements of a list whose key is `k`, each with that key, in their original order. |
| Util.GroupByIsPartition | src/lib/util.ts:19-30 | groupBy has one group per key that occurs, and each group holds exactly the elements with that key, in list order. |
| Util.Zip | src/lib/store.ts:103-106 | Ramda's `zip` as getItems uses it: as long as the shorter list, pairing elements position by position. |
| Util.Wrap | src/lib/util.ts:44-48 | A falsy value gives no elements, an array is returned as it is, anything else becomes a one-element list. |
| Util.ObjModifyEffect | src/lib/util.ts:58-73 | objModify fails exactly when the walk meets a value that is not a record; when it succeeds, the edited key holds the edited value and every path that parts from `path` reads as before. |
| Util.ObjAssocEmptyPath | src/lib/util.ts:58-95 | objAssoc with an empty path leaves the object as it is. |
| Util.ObjAssocStores | src/lib/util.ts:89-95 | objAssoc on a walkable path stores the value there and nothing else changes. |
| Util.ObjDeleteClears | src/lib/util.ts:97-112 | objDelete without keys leaves the path undefined; with keys, each key under it. |
| Util.SetAdd | src/plugins/core/idRecycling/systems/recycling.ts:20 | `set.add(x)`: the members are the old ones and `x`, none twice; adding a member already there changes nothing. |
| Util.SetDelete | src/plugins/core/idRecycling/systems/recycling.ts:37 | `set.delete(x)`: exactly the old members but `x`, none twice. |
| Entities.FixedID | src/lib/entity.ts:3-6 | The reference is real and names `id`. |
| Entities.RelativeID | src/lib/entity.ts:8-11 | The reference is unborn and carries `offset`. |
| Entities.IsUnborn | src/lib/entity.ts:20-22 | Every reference is exactly one of fixed and unborn. |
| Entities.HasID | src/lib/entity.ts:24-26 | True exactly for the fixed reference to `v`. |
| Entities.HasOffset | src/lib/entity.ts:28-30 | True exactly for the unborn reference at `offset`. |
| Changes.NoDividerNoChangeEvent | src/lib/systems/change.ts:11-32 | A name without `>` never contains the divider. |
| Changes.ChangeEventName | src/lib/systems/change.ts:22-27 | The name is `<method>--><key>`; it is a change event exactly because it contains the divider. |
| Changes.IsEventChange | src/lib/systems/change.ts:46-50 | isEventChange as written: it tests for the `components` section, the test of isComponentChange, so it holds of no event change at all. |
| Changes.IsEventChangeIntended | src/lib/systems/change.ts:46-50 | The evidently intended test: the path starts with `events`. |
| Changes.EventChangeMisclassified | src/lib/systems/change.ts:46-50 | An event change and a component change that isEventChange misclassifies. |
| Changes.ChangeHasID | src/lib/systems/change.ts:52-54 | True exactly for a component change that carries an entity reference. |
| Changes.IncrementChangeOffset | src/lib/systems/change.ts:60-71 | Only the offset of an unborn component reference moves, by `amount`; every other change is returned unchanged. |
| Changes.IncrementChangeOffsetAdds | src/lib/systems/change.ts:60-71 | Shifting twice is shifting by the sum. |
| Changes.ExtractChangeEntityId | src/lib/systems/change.ts:77-86 | A component change with a real reference that carries an id keeps that id as a number; every other change comes out without one; method, path and value are kept. |
| Changes.WithRealEntity | src/lib/systems/change.ts:77-86 | The change with its numeric id read back as a real entity. |
| Changes.ExtractChangeEntityIdRoundTrip | src/lib/systems/change.ts:77-86 | ExtractChangeEntityId loses nothing on component changes, and on a numeric component change it is undone by reading the id back. |
| Changes.ReplaceUnborn | src/lib/systems/change.ts:92-110 | Only a component change whose unborn reference has `offset` changes, and it then names the real entity `id`; every other change is returned unchanged. |
| Changes.ReplaceUnbornIdempotent | src/lib/systems/change.ts:92-110 | Resolving an offset a second time changes nothing more. |
| Changes.ReplaceUnbornCommutesWithShift | src/lib/systems/change.ts:60-110 | Resolving then shifting is shifting then resolving the shifted offset. |
| Changes.ForgetAll | src/plugins/core/idRecycling/systems/recycling.ts:34-40 | The stack keeps exactly the members that are not among the numeric `ids`, none twice. |
| Store.Empty | src/lib/store.ts:25-37 | A new store is well formed and has no live entries. |
| Store.Items | src/lib/store.ts:103-106 | The live entries as (id, component) pairs, slot by slot. |
| Store.IsLive | src/lib/store.ts:55-58 | The evidently intended membership: the slot must also be live. |
| Store.IsLiveIffListed | src/lib/store.ts:55-58 | The corrected membership is exactly "listed among the live ids", for every id the store answers for. |
| Store.LiveSlotUnique | src/lib/store.ts:55-58 | An id up to maxID sits in at most one live slot. |
| Store.InsertSpec | src/lib/store.ts:71-82 | insert: overwrites the slot of an id that hasEntity reports, otherwise appends the id and its component at slot n. Afterwards the id reads back the component, and is a member exactly when it is at most maxID. |
| Store.InsertItems | src/lib/store.ts:71-82 | What insert does to the live entries: a new id is appended; a live id has its entry replaced in place; a stale id (one hasEntity still reports after its removal) has its component written to a dead slot, so the live entries do not change at all. |
| Store.RemoveSpec | src/lib/store.ts:114-134 | remove: an id hasEntity does not report is ignored; when one entry is live the store is emptied; otherwise the last live entry is moved into the removed id's slot and the live prefix shrinks by one. |
| Store.RemoveLive | src/lib/store.ts:114-134 | Removing a live id takes exactly its entry out of the live entries, leaves it no longer live, and keeps every other live id with its component. |
| Store.RemoveLiveEntries | src/lib/store.ts:114-134 | Removing a live id takes exactly its entry out of the multiset of live entries, and it is no longer live. |
| Store.SwapRemoveItems | src/lib/store.ts:124-133 | The live entries after moving the last live entry into slot `k`. |
| Store.RemoveLiveKeepsOther | src/lib/store.ts:114-134 | Every other live id stays live with its component. |
| Store.RemoveStale | src/lib/store.ts:114-134 | Removing a stale id (reported by hasEntity but not live) does not undo anything of that id: it drops the last live entry instead, or empties the store when only one entry is live. |
| Store.RemoveIntended | src/lib/store.ts:114-134 | The evidently intended removal: only a live id is removed. |
| Store.MapValues | src/lib/store.ts:174 | Same length, the function applied at every position. |
| Store.HandleChangeSpec | src/lib/store.ts:147-186 | handleChange: `add` inserts only an id hasEntity does not report; `set` always inserts; `update` applies the function to every element of the components array, or to the slot sparse points to for the id; `delete` removes the id. An add, set or delete without an id is logged and ignored. An update of an id sparse has never held writes a property named "undefined" of the array in the source, invisible to every read modelled here, so it leaves the state as it is. A record without a method matches no case and leaves the store as it is. |
| Store.HandleChangeOnLive | src/lib/store.ts:147-186 | What each kind of change does to a live id's component: add keeps the old one, set replaces it, update applies the function to it, delete takes the entry away; every other live id keeps its component. |
| Store.AddDoesNotOverwrite | src/lib/store.ts:147-164 | Adding an id that is new appends it; adding it again keeps the first component. |
| Store.UpdateIntended | src/lib/store.ts:166-186 | The evidently intended update: only a live id's component changes; updating an id that is not live does nothing. |
| Store.StaleMembershipExample | src/lib/store.ts:55-58 | After removing the entity in the last slot, hasEntity still reports it, a later insert of it is lost, and removing it again drops entity 1. |
| Store.UpdateRemovedIdExample | src/lib/store.ts:166-186 | Updating entity 1 after it was removed rewrites entity 2's component, because sparse still points 1 at the slot 2 was moved into. |
| Store.SparseComponentStore.constructor | src/lib/store.ts:25-37 | A new, empty store answering membership up to `maxID`. |
| Store.SparseComponentStore.Length | src/lib/store.ts:42-44 | The number of live entries. |
| Store.SparseComponentStore.HasEntity | src/lib/store.ts:55-58 | The answer is hasEntity on the store's state: false above maxID, otherwise whether dense at the id's sparse slot holds the id. |
| Store.SparseComponentStore.GetComponent | src/lib/store.ts:89-91 | The component at the slot sparse gives for the id. |
| Store.SparseComponentStore.GetComponents | src/lib/store.ts:96-98 | The live components, slot by slot. |
| Store.SparseComponentStore.GetItems | src/lib/store.ts:103-106 | The live (id, component) pairs. |
| Store.SparseComponentStore.Insert | src/lib/store.ts:71-82 | The new state is InsertSpec of the old and the store stays well formed; InsertSpec and InsertItems give what that means for the live entries. |
| Store.SparseComponentStore.Remove | src/lib/store.ts:114-134 | The new state is RemoveSpec of the old and the store stays well formed; RemoveLive and RemoveStale give what that means. |
| Store.SparseComponentStore.HandleChange | src/lib/store.ts:166-186 | Dispatches a change on its method. `handled` is false exactly when no case matches, where the source returns undefined instead of the store. |
| Dependencies.Dedup | src/lib/dependencies.ts:18-20 | Exactly the elements of the input, each once. |
| Dependencies.FilterNames | src/lib/dependencies.ts:13-20 | The elements of `s` that satisfy `keep`, and no name twice when `s` has none. |
| Dependencies.FilterNamesConcat | src/lib/dependencies.ts:13-20 | Filtering a concatenation is filtering each part, and one name is kept exactly when it satisfies `keep`: the order and multiplicity of the input are kept. |
| Dependencies.FilterDependencies | src/lib/dependencies.ts:7-25 | Restricts a dependency record to `subset`: only nodes of the subset keep an entry, and each entry keeps only dependencies in the subset. |
| Dependencies.EmptyGraph | src/lib/dependencies.ts:35 | A new graph is well formed. |
| Dependencies.AddNode | src/lib/dependencies.ts:38 | `addNode`: a node already present is left as it is. |
| Dependencies.AddDependency | src/lib/dependencies.ts:40-42 | `addDependency`: both ends must already be nodes (the library throws otherwise). |
| Dependencies.GraphOf | src/lib/dependencies.ts:31-45 | The graph of `nodes` with the dependencies among them: each node once, in first-occurrence order, depending on exactly its listed dependencies that are themselves among `nodes`. |
| Dependencies.BuildDependencyGraph | src/lib/dependencies.ts:31-45 | buildDependencyGraph: adds every node, then every filtered dependency, which yields the graph of the nodes restricted to their own dependencies. |
| Dependencies.GraphOfPointwise | src/lib/dependencies.ts:31-45 | A graph with the right nodes and edges per node is `GraphOf`. |
| Dependencies.AddNodes | src/lib/dependencies.ts:38 | Adds each of `nodes` in turn to an empty graph (the first `forEach`). |
| Dependencies.AddDependencies | src/lib/dependencies.ts:40-42 | Adds an edge from `node` to each of `targets` (the inner `forEach`). |
| Dependencies.MaxHeightIsMax | src/lib/dependencies.ts:74-89 | The height of the deepest dependency bounds every dependency's height and is reached by one of them. |
| Dependencies.HeightStep | src/lib/dependencies.ts:59-91 | Height is characterised by its dependencies: at least one more than each of them, exactly one more than some of them, and zero exactly for a node without dependencies. |
| Dependencies.HeightCeiling | src/lib/dependencies.ts:59-91 | An upper bound on the heights of the nodes in `s`. |
| Dependencies.DirectDependants | src/lib/dependencies.ts:80 | The nodes that directly depend on some node of `s`. |
| Dependencies.Closure | src/lib/dependencies.ts:80 | The least set containing `acc` and closed under direct dependants. |
| Dependencies.DependantsOf | src/lib/dependencies.ts:80 | dependantsOf: the transitive dependants of `x` in node order (the library lists them in depth-first order; their order does not matter to findDepths). |
| Dependencies.DirectDependantsAbove | src/lib/dependencies.ts:80 | A direct dependant of nodes all higher than `h` is itself higher than `h`. |
| Dependencies.ClosureAbove | src/lib/dependencies.ts:80 | Every node of the closure of nodes higher than `h` is higher than `h`. |
| Dependencies.DependerIsDependant | src/lib/dependencies.ts:80 | A node that depends on `x` is among the transitive dependants of `x`. |
| Dependencies.TransDependantsHigher | src/lib/dependencies.ts:80 | Every transitive dependant of `x` is higher than `x`, and every node with `x` among its dependencies is a transitive dependant of `x`. |
| Dependencies.CalculateDepth | src/lib/dependencies.ts:74-76 | The new depth is at least one more than the current one and at least the recorded one, and equals one of them. |
| Dependencies.QueueStep | src/lib/dependencies.ts:78-89 | One step of the queue: the head is taken off and pairs one level deeper are appended, so the head depth never falls, and when it stays the same fewer pairs carry it. |
| Dependencies.AllHeightsSeen | src/lib/dependencies.ts:65-89 | Once the queue is exhausted, every node has been seen at its height: leaves were seen at 0, and a node was reached from a highest dependency one level below it. |
| Dependencies.NextNodes | src/lib/dependencies.ts:80-86 | The pairs appended for the dependants of the head at `depth`. |
| Dependencies.NextNodesOneDeeper | src/lib/dependencies.ts:80-86 | While the queue is processed level by level, calculateDepth always yields one level deeper: every neighbour is queued at `depth + 1`. |
| Dependencies.StepQueueSound | src/lib/dependencies.ts:78-89 | Every pair still queued after a step names a node at most as deep as its height. |
| Dependencies.StepQueueLevels | src/lib/dependencies.ts:78-89 | After a step the queue still holds depths in ascending order, spanning at most one level. |
| Dependencies.StepSeen | src/lib/dependencies.ts:78-89 | After a step the dequeued pairs are still sound, the depth map holds the last depth seen for each node, and every queued depth is at least the last one dequeued. |
| Dependencies.StepFollow | src/lib/dependencies.ts:78-89 | After a step every dequeued node's dependants one level deeper are still dequeued or queued, and so is every leaf at depth 0. |
| Dependencies.LeafQueue | src/lib/dependencies.ts:65-69 | The initial queue: each leaf at depth 0. |
| Dependencies.QueueInvariantInit | src/lib/dependencies.ts:65-72 | The queue starts with every leaf at depth 0 and nothing dequeued. |
| Dependencies.QueueInvariantStep | src/lib/dependencies.ts:78-89 | One iteration of the findDepths loop keeps the invariant, and either raises the depth at the head of the queue or leaves fewer pairs at that depth. |
| Dependencies.FindDepths | src/lib/dependencies.ts:59-91 | findDepths: breadth-first from the leaves, re-queueing every transitive dependant one level deeper; the last depth written for a node is its height, so every node lies strictly deeper than each of its dependencies and the leaves are exactly the nodes at depth 0. Nodes outside `nodes` are ignored. `rank` is a witness that the dependencies among `nodes` have no cycle (the graph library throws when the dependants of a dequeued node reach a cycle, that is, on a cycle that depends on a leaf). |
| Dependencies.FindDepthsResult | src/lib/dependencies.ts:59-91 | What the exhausted queue leaves behind: each node at its height. |
| Dependencies.MinDepth | src/lib/dependencies.ts:93-102 | The result is one of the depths and no depth is smaller. |
| Dependencies.SomeMin | src/lib/dependencies.ts:93-102 | The result is a member of the set and no member is smaller. |
| Dependencies.Levels | src/lib/dependencies.ts:93-102 | Exactly the depths that occur, each once, strictly ascending. |
| Dependencies.AtDepth | src/lib/dependencies.ts:93-102 | Exactly the nodes whose depth is `d`. |
| Dependencies.BatchesAt | src/lib/dependencies.ts:93-102 | One batch per level of `ls`. |
| Dependencies.BatchesAtLevels | src/lib/dependencies.ts:93-102 | Over the ascending list of the depths that occur, no batch is empty, every node is in some batch, and one batch comes before another exactly when its depth is smaller. |
| Dependencies.BatchByDepths | src/lib/dependencies.ts:93-102 | batchByDepths: groups the nodes by depth, in ascending depth order. No batch is empty, every node is in exactly one batch, and a node sits in an earlier batch than another exactly when it is shallower. |
| Dependencies.BatchesRespectDependencies | src/lib/dependencies.ts:59-102 | Batching depths that put every dependency below its dependant runs every dependency in an earlier batch, so the nodes of one batch never depend on one another. |
| Dependencies.ExampleGraphFull | src/lib/dependencies.test.ts:61-79 | The five-node example graph has exactly the listed edges. |
| Dependencies.ExampleGraphPart | src/lib/dependencies.test.ts:61-79 | Restricted to four of the nodes, the edges to the missing node disappear. |
| Dependencies.ExampleRankedFull | src/lib/dependencies.test.ts:61-79 | The five-node example graph is acyclic. |
| Dependencies.ExampleRankedPart | src/lib/dependencies.test.ts:61-79 | The four-node restriction is acyclic. |
| Dependencies.ExampleHeightsFull | src/lib/dependencies.test.ts:61-79 | Over all five nodes the depths are a 0, b 1, c 1, d 2 and e 2. |
| Dependencies.ExampleHeightsPart | src/lib/dependencies.test.ts:61-79 | Restricted to a, b, d and e, the edges to c disappear: e becomes a leaf at depth 0 while d stays at depth 2. |
| Dependencies.SortNames | src/lib/dependencies.ts:108-113 | A dependency set's names, given in iteration order, as a list sorted in lexicographic order without repeats. |
| Dependencies.SortedUnique | src/lib/dependencies.ts:108-113 | Two sorted lists of the same names are the same list, so the sorted form does not depend on the set's order. |
| Dependencies.InsertName | src/lib/dependencies.ts:111 | Inserting a name into a sorted list keeps it sorted and adds exactly that name. |
| Dependencies.DependencyLists | src/lib/dependencies.ts:108-113 | The hashed form keeps every node and gives each the sorted list of its dependency set. |
| Dependencies.HashIgnoresSetOrder | src/lib/dependencies.ts:104-123 | Two dependency records give the same hashed form exactly when they hold the same sets, so reordering a set never makes areDependenciesChanged report a change. |
| Dependencies.HashExample | src/lib/dependencies.test.ts:99-103 | The test's record hashes alike with `d`'s set in either order. |
| Intentions.UsedOffsets | src/lib/systems/intention.ts:33-45 | The offsets in use, in order of first use: what getUsedOffsets collects into a JavaScript Set. Each offset appears once. |
| Intentions.Raise | src/lib/systems/intention.ts:64-78 | The counter after adding `c`: raised to the offset of an unborn component reference above it, otherwise kept. |
| Intentions.RaiseAll | src/lib/systems/intention.ts:86-91 | The counter after adding `cs` one by one: the largest of `g` and the offsets `cs` uses. |
| Intentions.AddChangeSpec | src/lib/systems/intention.ts:64-78 | addChange: appends the change and raises the counter past its offset. |
| Intentions.AddChangesSpec | src/lib/systems/intention.ts:86-91 | addChanges: appends the changes in order, raising the counter past each. |
| Intentions.AddChangesSnoc | src/lib/systems/intention.ts:86-91 | Adding a list and then one more change is adding the longer list. |
| Intentions.CreateIDSpec | src/lib/systems/intention.ts:19-23 | createID: the counter goes up by one and names the new reservation. |
| Intentions.IdOrNew | src/lib/systems/intention.ts:144-155 | A given reference is used as it is; otherwise the counter goes up by one and the new reservation carries it. |
| Intentions.ReplaceAll | src/lib/systems/intention.ts:51-56 | Replaces the unborn reference at `offset` in every change. |
| Intentions.ReplaceAllOffsets | src/lib/systems/intention.ts:51-56 | After replaceAllUnborn, `offset` is no longer in use and every other offset still is; the changes that did not use it are untouched. |
| Intentions.ReplaceAllSpec | src/lib/systems/intention.ts:51-56 | replaceAllUnborn keeps the counter and can only shrink the offsets in use. |
| Intentions.ShiftAll | src/lib/systems/intention.ts:100-108 | Shifts every unborn component reference by `amount`. |
| Intentions.ShiftAllOffsets | src/lib/systems/intention.ts:100-108 | The offsets in use after a shift are the old ones moved up by `amount`. |
| Intentions.MergeSpec | src/lib/systems/intention.ts:100-108 | merge: appends the other proposal's changes with their unborn offsets shifted past this proposal's counter. The counter is only raised past the shifted offsets; the other proposal's own counter is not added. |
| Intentions.MergeSeparatesOffsets | src/lib/systems/intention.ts:100-108 | Merging keeps the two proposals' reservations apart: when this one's offsets are within its counter and the other's are at least 1 (as createID makes them), no shifted offset collides with one of ours, and the counter never exceeds the sum of the two counters. |
| Intentions.MergeExample | src/lib/systems/intention.test.ts:94-124 | Two proposals that each reserved one id and used it on a component merge into one holding offsets 1 and 2 with a counter of 2. |
| Intentions.RealChanges | src/lib/systems/intention.ts:110-117 | extractRealChanges keeps exactly the changes that are not component changes with an unborn reference, and everything when no offset is used. |
| Intentions.RealChangesConcat | src/lib/systems/intention.ts:110-117 | Extraction of a concatenation is extraction of each part, and one change is kept exactly when it is not an unborn component change: order and multiplicity are kept. |
| Intentions.AddComponentSpec | src/lib/systems/intention.ts:144-155 | addComponent appends one `add` of the value, for the given reference or, without one, for the reservation at counter + 1, which no earlier change uses and which becomes the counter. A given unborn reference raises the counter to its offset, and every used offset stays within the counter. |
| Intentions.IdAt | src/lib/systems/intention.ts:157-184 | The i-th reference when there is one, none past the end. |
| Intentions.AddComponentsAppends | src/lib/systems/intention.ts:157-165 | addComponents appends one change per value after the existing ones, and keeps every offset within the counter. |
| Intentions.AddComponentsEntries | src/lib/systems/intention.ts:157-165 | The change addComponents appends for the i-th value is an `add` of it to the component, carrying the i-th id when there is one. |
| Intentions.BundleChanges | src/lib/systems/intention.ts:125-142 | The changes of a bundle: one per entry, all for the same entity. |
| Intentions.AddBundleSpec | src/lib/systems/intention.ts:125-142 | addBundle: one `add` per entry, all carrying the given reference, or one new reservation shared by every entry. |
| Intentions.AddBundleSharesOneOffset | src/lib/systems/intention.ts:125-142 | A bundle without an id reserves exactly one offset, fresh for the proposal, and every entry carries it. |
| Intentions.BundleRecordsAsWritten | src/lib/systems/intention.ts:125-142 | The records addBundle builds as written: a component path, a value and the reference, but no `method`. |
| Intentions.SetChanges | src/lib/systems/intention.ts:176-184 | setComponents: the id at each position, undefined past the end of `ids`. |
| Intentions.DeleteChanges | src/lib/systems/intention.ts:194-200 | deleteComponents: one `delete` per id. |
| Intentions.UpdateChanges | src/lib/systems/intention.ts:222-240 | updateComponents with ids: one `update` per id. |
| Intentions.EventChanges | src/lib/systems/intention.ts:281-287 | addEvents: one `add` to the event per value. |
| Intentions.NoOffsetsKeepCounter | src/lib/systems/intention.ts:64-91 | Changes that reserve nothing leave the counter alone. |
| Intentions.Intention.constructor | src/lib/systems/intention.ts:14-17 | A proposal with the given changes and counter; `new Intention()` passes none and 0. |
| Intentions.Intention.CreateID | src/lib/systems/intention.ts:19-23 | The new state is CreateIDSpec of the old: the counter goes up by one and the returned reservation carries the new counter. |
| Intentions.Intention.CreateIDs | src/lib/systems/intention.ts:25-31 | createIDs: `amount` new reservations, numbered on from the counter. |
| Intentions.Intention.GetUsedOffsets | src/lib/systems/intention.ts:33-45 | getUsedOffsets: the offsets in use, in order of first use. |
| Intentions.Intention.ReplaceAllUnborn | src/lib/systems/intention.ts:51-56 | The new changes are those with the offset resolved to the id; the counter is kept (ReplaceAllOffsets and ReplaceAllSpec state the effect). |
| Intentions.Intention.AddChange | src/lib/systems/intention.ts:64-78 | The change is appended and the counter raised past its offset (AddChangeSpec). |
| Intentions.Intention.AddChanges | src/lib/systems/intention.ts:86-91 | The changes are appended in order, the counter raised past each (AddChangesSpec). |
| Intentions.Intention.Merge | src/lib/systems/intention.ts:100-108 | merge: the other proposal's changes, shifted past this counter, are appended. |
| Intentions.Intention.ExtractRealChanges | src/lib/systems/intention.ts:110-117 | The result is RealChanges of the proposal's changes; the proposal is not changed. |
| Intentions.Intention.AddBundleAsWritten | src/lib/systems/intention.ts:125-142 | addBundle as written: its records carry no method. |
| Intentions.Intention.AddBundle | src/lib/systems/intention.ts:125-142 | addBundle as evidently intended: one `add` per entry. |
| Intentions.Intention.AddComponent | src/lib/systems/intention.ts:144-155 | One `add` is appended, for the given reference or for a new reservation: the new state is AddComponentSpec of the old. |
| Intentions.Intention.AddComponents | src/lib/systems/intention.ts:157-165 | One `add` per value is appended after the existing changes (AddComponentsAppends, AddComponentsEntries). |
| Intentions.Intention.SetComponent | src/lib/systems/intention.ts:167-174 | One `set` of the value for the reference is appended. |
| Intentions.Intention.SetComponents | src/lib/systems/intention.ts:176-184 | setComponents: a `set` per value; past the end of `ids` the id is undefined. |
| Intentions.Intention.DeleteComponent | src/lib/systems/intention.ts:186-192 | One `delete` for the reference is appended. |
| Intentions.Intention.DeleteComponents | src/lib/systems/intention.ts:194-200 | One `delete` per reference is appended, in order. |
| Intentions.Intention.DeleteAllComponentsOfName | src/lib/systems/intention.ts:202-207 | deleteAllComponentsOfName: a `delete` without an id. |
| Intentions.Intention.UpdateComponent | src/lib/systems/intention.ts:209-220 | One `update` with the function for the reference is appended. |
| Intentions.Intention.UpdateComponents | src/lib/systems/intention.ts:222-240 | updateComponents: one `update` per id, or a single one without an id. |
| Intentions.Intention.AddResource | src/lib/systems/intention.ts:242-248 | One `add` of the value to `resources/<key>` is appended; the counter is kept. |
| Intentions.Intention.SetResource | src/lib/systems/intention.ts:250-256 | One `set` of the value to `resources/<key>` is appended; the counter is kept. |
| Intentions.Intention.DeleteResource | src/lib/systems/intention.ts:258-263 | One `delete` of `resources/<key>` is appended; the counter is kept. |
| Intentions.Intention.UpdateResource | src/lib/systems/intention.ts:265-271 | One `update` of `resources/<key>` with the function is appended; the counter is kept. |
| Intentions.Intention.AddEvent | src/lib/systems/intention.ts:273-279 | One `add` of the value to `events/<name>` is appended; the counter is kept. |
| Intentions.Intention.AddEvents | src/lib/systems/intention.ts:281-287 | One `add` per value to `events/<name>` is appended, in order (EventChanges). |
| Intentions.Intention.ResetEvents | src/lib/systems/intention.ts:289-298 | resetEvents (and its alias deleteEvents): a `delete` of the event list. |
| Worlds.EmptyWorld | src/lib/world.ts:24-28 | No stores, no events, no resources; the world is well formed. |
| Worlds.GetComponentStore | src/lib/world.ts:102-107 | The named store when it exists, otherwise a new empty store with the default bound. |
| Worlds.ListName | src/lib/world.ts:549-559 | The key list holds the old keys and the name, none twice; a name already there leaves the list as it was. |
| Worlds.SetComponentStore | src/lib/world.ts:549-559 | The named store is replaced and every other store, the events and the resources are kept. |
| Worlds.LoseComponentStore | src/lib/world.ts:549-584 | Writing `undefined` as the named store: the key stays, the store is gone. |
| Worlds.AddEventSpec | src/lib/world.ts:462-468 | addEvent: appends `v` to the named list. |
| Worlds.ResetEventsSpec | src/lib/world.ts:470-473 | resetEvents: empties the named list. |
| Worlds.ApplyResourceChangeSpec | src/lib/world.ts:475-494 | applyResourceChange: `add` leaves a key that holds a defined value alone, `set` overwrites, `update` applies the function to the current value (undefined when missing), `delete` removes the key, and a change without a method matches no case. No other key and nothing but the resources change. |
| Worlds.ResourceChangeIsObjectEdit | src/lib/world.ts:475-494 | Each resource change is the nested-record edit the source performs on the path `resources/<key>` of the world object: objAssoc for add and set, objUpdate for update, objDelete without keys for delete. |
| Worlds.ObjModifyResources | src/lib/world.ts:475-494 | Editing `resources/<key>` of the world object edits that key of the resources. |
| Worlds.ForwardToComponentsSpec | src/lib/world.ts:561-584 | forwardToComponents: the named store (a new one if missing) handles the change and is written back; a change without a method makes the store's handler return nothing, which is written back as `undefined`. Unless the change is to `id` itself, the `id` store is written back too, holding the change's id mapped to itself after an add or set that carries one. |
| Worlds.ForwardToComponentsEffect | src/lib/world.ts:561-584 | After a component change the named store is the one that handled the change; an add or set carrying an id on another component leaves that id in the `id` store mapped to itself, and any other change to another component leaves the `id` store's contents as they were. |
| Worlds.ForwardKeepsOtherStore | src/lib/world.ts:561-584 | A component change touches only its own store and the `id` store. |
| Worlds.ForwardWithoutMethodLosesStore | src/lib/world.ts:561-584 | A change without a method wipes its component's store: afterwards the world reads a new, empty store under that name. |
| Worlds.ApplyChangeSpec | src/lib/world.ts:440-460 | applyChange: records the change on the raw log, then forwards it to the components, applies it to the resources, or (for an event) empties the list on delete and appends the change's value otherwise. |
| Worlds.ApplyChangeRecords | src/lib/world.ts:440-460 | Every change lands on the raw log; an event change lands on its own list; and only a component change touches the stores, only a resource change the resources. |
| Worlds.ApplyChangesSpec | src/lib/world.ts:422-438 | The changes applied one after another, in order, keep the world well formed. |
| Worlds.SetResourceSpec | src/lib/world.ts:85-87 | setResource: a `set` change of the named resource. |
| Worlds.CreateEntities | src/lib/world.ts:46-58 | createEntities: `n` ids, taken first from the revival stack in its order and then counted on from max-id. The world is not changed. |
| Worlds.CreateEntitiesDistinct | src/lib/world.ts:46-58 | The ids handed out are distinct when the revival stack holds only ids already counted: a revived id is at most max-id, a new one above it. |
| Worlds.CreateEntitiesExamples | src/lib/world.ts:46-58 | The two allocations the kernel's documentation gives as examples. |
| Worlds.StoresOf | src/lib/world.ts:236-238 | The store of each name, in the order of the names. |
| Worlds.Smallest | src/lib/world.ts:247-249 | The position of the first store of least length: the head after a stable sort by length. |
| Worlds.FilterIds | src/lib/world.ts:252-255 | The ids of `ids` that satisfy `keep`. |
| Worlds.FilterIdsConcat | src/lib/world.ts:252-255 | Filtering a concatenation is filtering each part, and one id is kept exactly when it satisfies `keep`: the order and multiplicity of the input are kept. |
| Worlds.QueryIds | src/lib/world.ts:247-255 | The ids a query returns: the live ids of the smallest store that every other store reports as a member. |
| Worlds.Query | src/lib/world.ts:233-261 | query: nothing for no names or a missing store; otherwise one tuple per shared id, holding that id's component from each named store in the order of the names. |
| Worlds.QueryIsIntersection | src/lib/world.ts:233-261 | With stores whose membership is exact and whose live ids are all within their bound, a query returns exactly the ids live in every named store. |
| Worlds.ComponentsForEntity | src/lib/world.ts:79-83 | getComponentsForEntity: the names of the stores that report the id, in key order. |
| Worlds.RemoveAll | src/lib/world.ts:67-74 | The ids removed from one store, one after another. |
| Worlds.RemoveFromStores | src/lib/world.ts:60-74 | The stores of `names`, visited in turn, each with the ids removed. |
| Worlds.RemoveFromStoresAt | src/lib/world.ts:60-74 | Visiting each name once removes the ids from exactly the named stores. |
| Worlds.DeleteEntitiesSpec | src/lib/world.ts:67-74 | deleteEntities: for each store, each id removed in turn. |
| Worlds.DeleteEntitySpec | src/lib/world.ts:60-65 | deleteEntity: the id removed from every store. |
| Worlds.DeleteEntityIsDeleteEntities | src/lib/world.ts:60-74 | Deleting one entity is deleting the list holding it. |
| Worlds.RemoveOne | src/lib/world.ts:60-74 | Removing the one-element list is removing its element. |
| Worlds.RemoveFromStoresStep | src/lib/world.ts:60-74 | One more name visited. |
| Worlds.RemoveFromAllStores | src/lib/world.ts:67-74 | The loop over the world's keys, finished, is deleteEntities. |
| Worlds.DeleteEntityEffect | src/lib/world.ts:60-65 | In every store the id was live in, it no longer is, and every other live id keeps its component; a store that did not report the id is unchanged. |
| Worlds.DeleteEach | src/lib/world.ts:60-65 | deleteEntity applied for each id in turn. |
| Worlds.DeleteEachAt | src/lib/world.ts:60-74 | Deleting the ids one entity at a time leaves each store with the ids removed from it in order. |
| Worlds.DeleteEntitiesIsDeleteEach | src/lib/world.ts:60-74 | Looping over the stores and then the ids, as deleteEntities does, is the same as deleting the ids one entity at a time. |
| Worlds.ResolveOffsets | src/lib/world.ts:409-416 | The i-th offset of `os` replaced by the i-th id, in turn. |
| Worlds.ResolveOffsetsAssigns | src/lib/world.ts:409-416 | Each change that used the i-th offset now holds the i-th id, and every other change is as it was. |
| Worlds.ResolvedChanges | src/lib/world.ts:409-416 | The proposal's changes once fixIntentionIds has run against `w`: its used offsets, in order of first use, replaced by as many new ids. |
| Worlds.ResolvedChangesAreReal | src/lib/world.ts:409-438 | Every change of a resolved proposal is real, so extraction keeps all of them. |
| Worlds.ResolvedChangesAssign | src/lib/world.ts:409-438 | applyIntention's renaming: the change that used the i-th used offset gets the i-th id createEntities hands out; nothing else changes. |
| Worlds.ExtractIds | src/lib/world.ts:422-438 | Each change with its entity reference read as a number, in order. |
| Worlds.Names | src/lib/world.ts:267-283 | The names among a list of systems (each system is known by its name). |
| Worlds.StageSystems | src/lib/world.ts:263-283 | The distinct names of the stage's systems, in registration order. |
| Worlds.StageDepths | src/lib/world.ts:283-285 | Each of the stage's systems at the length of its longest dependency chain. |
| Worlds.StageBatchesOrdered | src/lib/world.ts:263-289 | A stage's batches hold exactly its systems, and each dependency a system has within the stage sits in an earlier batch than the system, so the systems of one batch never depend on one another. |
| Worlds.BatchesValue | src/lib/world.ts:286-288 | A stage's batches as the resource stores them. |
| Worlds.BatchesRecord | src/lib/world.ts:291-303 | The stage-batches resource for a record of stages. |
| Worlds.RemoveFromEachStore | src/lib/world.ts:60-74 | The loop shared by deleteEntity and deleteEntities: each listed store, in order, loses the ids one after another. |
| Worlds.World.constructor | src/lib/world.ts:24-28 | A world holding the given records; `new World()` passes empty ones. |
| Worlds.World.AddEvent | src/lib/world.ts:462-468 | The world's new state is AddEventSpec of the old: the value appended to the named list. |
| Worlds.World.ResetEvents | src/lib/world.ts:470-473 | The world's new state is ResetEventsSpec of the old: the named list emptied. |
| Worlds.World.ApplyResourceChange | src/lib/world.ts:475-494 | The world's new state is ApplyResourceChangeSpec of the old, which ResourceChangeIsObjectEdit ties to the nested-record edit. |
| Worlds.World.ForwardToComponents | src/lib/world.ts:561-584 | The world's new state is ForwardToComponentsSpec of the old; the world stays well formed. |
| Worlds.World.ApplyChange | src/lib/world.ts:440-460 | The world's new state is ApplyChangeSpec of the old (ApplyChangeRecords states the effect). |
| Worlds.World.SetResource | src/lib/world.ts:85-87 | The world's new state is SetResourceSpec of the old. |
| Worlds.World.DeleteEntity | src/lib/world.ts:60-65 | The world's new state is DeleteEntitySpec of the old (DeleteEntityEffect states the effect). |
| Worlds.World.DeleteEntities | src/lib/world.ts:67-74 | The world's new state is DeleteEntitiesSpec of the old, which equals deleting the ids one at a time. |
| Worlds.World.FixIntentionIds | src/lib/world.ts:409-416 | fixIntentionIds: the proposal's used offsets are replaced, in order of first use, by the ids the world would create next. The world itself is not changed, and afterwards no change uses an offset. |
| Worlds.World.ApplyIntention | src/lib/world.ts:422-438 | applyIntention: resolves the proposal's reserved entities, then applies its real changes one by one, in order; every change is real by then. |
| Worlds.World.BuildStageBatches | src/lib/world.ts:263-289 | buildStageBatches: the stage's systems grouped by the length of their longest dependency chain within the stage (StageBatchesOrdered states what the grouping guarantees). `rank` witnesses that the stage has no cycle. |
| Worlds.World.BuildAllStageBatches | src/lib/world.ts:291-303 | buildAllStageBatches: the batches of every stage, which it also stores as the stage-batches resource. |
| ChangeEvents.CreateChangeEvent | src/plugins/core/changeEvents/lib.ts:11-20 | createChangeEvent: an `add` to the event named after the change's method and key, carrying the raw change itself. The name contains the divider, so the event is itself a change event, and the key can be read back from it. |
| ChangeEvents.CreateIDChangeEvent | src/plugins/core/changeEvents/lib.ts:22-29 | createIDChangeEvent: the change restated on the `id` component, with the same method and the change's id as both value and id. |
| ChangeEvents.IdChangeEventName | src/plugins/core/changeEvents/lib.ts:22-29 | The id event of a change is the `<method>-->id` event. |
| ChangeEvents.RawLog | src/plugins/core/changeEvents/systems/rawChangeEvents.ts:19-24 | The changes on the raw log, in the order they were applied. |
| ChangeEvents.SliceFrom | src/plugins/core/changeEvents/systems/rawChangeEvents.ts:19-24 | A non-negative start drops that many elements (none past the end); a negative one keeps that many from the end (all when it exceeds the length). |
| ChangeEvents.Keep | src/plugins/core/changeEvents/systems/rawChangeEvents.ts:41 | `cs.filter(p)`: the changes satisfying `p`, in order. |
| ChangeEvents.KeepConcat | src/plugins/core/changeEvents/systems/rawChangeEvents.ts:41 | Filtering a concatenation filters each part. |
| ChangeEvents.NonChangeEvents | src/plugins/core/changeEvents/systems/rawChangeEvents.ts:41 | The raw changes that are not themselves change events. |
| ChangeEvents.ChangeEventsFor | src/plugins/core/changeEvents/systems/rawChangeEvents.ts:44 | One change event per raw change, in order. |
| ChangeEvents.NonChangeEventsEmpty | src/plugins/core/changeEvents/systems/rawChangeEvents.ts:41 | Nothing is left after dropping the change events exactly when all were change events. |
| ChangeEvents.ChangeEventsForCovers | src/plugins/core/changeEvents/systems/rawChangeEvents.ts:44 | Every change of the list has its event among the events. |
| ChangeEvents.ChangeEventsForSound | src/plugins/core/changeEvents/systems/rawChangeEvents.ts:44 | Every event of the list is the event of one change of the list, which it carries. |
| ChangeEvents.IdChanges | src/plugins/core/changeEvents/systems/rawChangeEvents.ts:26-52 | The raw changes that create an entity, restated on the `id` component. |
| ChangeEvents.EventChangesUseNoOffsets | src/plugins/core/changeEvents/systems/rawChangeEvents.ts:54-57 | Event changes reserve no unborn entity. |
| ChangeEvents.AddChangeEvents | src/plugins/core/changeEvents/systems/rawChangeEvents.ts:18-58 | addChangeEvents: the `id` events of the pending changes that create an entity, then one event per pending change that is not itself a change event, then the index moved to the end of the log. The proposal reserves nothing. |
| ChangeEvents.ProposeEvents | src/plugins/core/changeEvents/systems/rawChangeEvents.ts:54-57 | A fresh intention given two lists of events and then the index: the events reserve no entity, so the counter stays at zero. |
| ChangeEvents.AddChangeEventsNoEcho | src/plugins/core/changeEvents/systems/rawChangeEvents.ts:18-58 | Every event addChangeEvents proposes is a change event, so the raw changes recording them produce no further events in the next round. |
| ChangeEvents.AddChangeEventsPerKey | src/plugins/core/changeEvents/systems/rawChangeEvents.ts:41-44 | Each pending raw change that is not a change event gets exactly its own event, in log order, carrying it; one that is a change event gets none. |
| ChangeEvents.AddChangeEventsIdEcho | src/plugins/core/changeEvents/systems/rawChangeEvents.ts:26-52 | The extra `id` events come first: one per pending component add or set (or change without a method) that carries an id on a component other than `id` and is not a change event, in log order, each the event of that change restated on `id`. |
| ChangeEvents.AddChangeEventsOnlyIndex | src/plugins/core/changeEvents/systems/rawChangeEvents.ts:18-58 | Nothing but the index is proposed exactly when every pending raw change is itself a change event. |
| ChangeEvents.AddChangeEventsAdvancesIndex | src/plugins/core/changeEvents/systems/rawChangeEvents.ts:18-58 | Once the proposal's index change is applied, and nothing else, the index points past the old log and only that recorded change is pending. |
| ChangeEvents.ResetRawChangesIndex | src/plugins/core/changeEvents/systems/rawChangeEvents.ts:63-65 | resetRawChangesIndex: sets the index back to 0. |
| ChangeEvents.ResetMakesWholeLogPending | src/plugins/core/changeEvents/systems/rawChangeEvents.ts:19-24 | After the reset is applied, the whole raw log is pending again. |
| ChangeEvents.ModifiedEvent | src/plugins/core/changeEvents/systems/modifiedEvents.ts:13-34 | The `modified-->key` event carrying the raw change. |
| ChangeEvents.AddModifiedEvents | src/plugins/core/changeEvents/systems/modifiedEvents.ts:13-34 | addModifiedEvents: nothing when no raw change is anything but a change event; otherwise one `modified` event per such raw change, deletes included, in log order. It reads the whole log and ignores the index. |
| ChangeEvents.ModifiedIncludesDeletes | src/plugins/core/changeEvents/systems/modifiedEvents.ts:13-34 | A recorded delete that is not a change event gets a `modified` event. |
| ChangeEvents.ModifiedIgnoresIndex | src/plugins/core/changeEvents/systems/modifiedEvents.ts:13-34 | Moving the index does not change what addModifiedEvents proposes. |
| IdRecycling.EventValues | src/plugins/core/idRecycling/lib.ts:11-25 | The value of each event, in order. |
| IdRecycling.CreatedIds | src/plugins/core/idRecycling/lib.ts:11-25 | getCreatedIds: the values of the `add-->id` events followed by those of the `set-->id` events. |
| IdRecycling.IdEventCarriesId | src/plugins/core/idRecycling/lib.ts:11-25 | The `id` event that addChangeEvents derives from a change creating an entity carries that entity's id as its value, so getCreatedIds reads back exactly the id. |
| IdRecycling.Present | src/plugins/core/idRecycling/lib.ts:33-35 | Exactly the ids that are present, never more entries than the input. |
| IdRecycling.PresentKeepsAll | src/plugins/core/idRecycling/lib.ts:33-38 | Nothing is dropped exactly when every id is present. |
| IdRecycling.EventIds | src/plugins/core/idRecycling/lib.ts:27-35 | One entry per event: its id when it carries one, none otherwise. |
| IdRecycling.LiveIdsOfContents | src/plugins/core/idRecycling/lib.ts:38-42 | An id is among them exactly when it is a live id of one of the stores. |
| IdRecycling.DeletedIds | src/plugins/core/idRecycling/lib.ts:27-45 | getDeletedIDs: nothing without `delete-->id` events; every live id of every store, in key order, when one of them carries no id; otherwise the ids they carry, in order. |
| IdRecycling.PresentInOrder | src/plugins/core/idRecycling/lib.ts:33-45 | When every id is present, they come out one for one. |
| IdRecycling.AddAllContents | src/plugins/core/idRecycling/systems/recycling.ts:20 | Adding ids to a set: it holds exactly the old members and the ids, each once. |
| IdRecycling.UpdateEntityRevivalQueue | src/plugins/core/idRecycling/systems/recycling.ts:11-22 | updateEntityRevivalQueue: nothing when no id was deleted; otherwise the revival stack with every deleted id added, set as the resource. |
| IdRecycling.RevivalQueueHoldsDeleted | src/plugins/core/idRecycling/systems/recycling.ts:11-22 | Once applied, the proposed revival stack holds exactly the old stack and the deleted ids, none twice when the old stack held none twice. |
| IdRecycling.ReviveEntities | src/plugins/core/idRecycling/systems/recycling.ts:28-41 | reviveEntities: nothing when no id was created or there is no revival stack; otherwise an update of the stack that deletes every created id. |
| IdRecycling.ReviveForgetsCreated | src/plugins/core/idRecycling/systems/recycling.ts:28-41 | Once applied, the revival stack keeps exactly the ids that were not created again; nothing else is touched. |
| IdRecycling.NumIds | src/plugins/core/idRecycling/systems/recycling.ts:46-49 | Each deleted id as a number value, in order. |
| IdRecycling.EntityDeletionCleanup | src/plugins/core/idRecycling/systems/recycling.ts:43-50 | entityDeletionCleanup: nothing when no id was deleted; otherwise each deleted id, in order, added to the death's-door events. |
| IdRecycling.CleanupQueuesDeletedIds | src/plugins/core/idRecycling/systems/recycling.ts:43-73 | Every id entityDeletionCleanup queues is read back by executeEntities as that id, in the same order. |
| IdRecycling.ExecuteEntities | src/plugins/core/idRecycling/systems/recycling.ts:57-73 | executeEntities: nothing when death's door is empty, without looking at any store; otherwise, for each entry in turn, a delete of each component the store reports for it other than `id` (every component for an undefined entry), and then death's door cleared. |
| IdRecycling.KillComponents | src/plugins/core/idRecycling/systems/recycling.ts:65-69 | The inner loop of executeEntities: deletes each listed component but `id`. |
| IdRecycling.KillChangesContents | src/plugins/core/idRecycling/systems/recycling.ts:65-69 | The deletes of one entity: one per listed name other than `id`. |
| IdRecycling.ExecutionDeletes | src/plugins/core/idRecycling/systems/recycling.ts:57-73 | executeEntities deletes component `name` of entity `id` exactly when `id` is on death's door, `name` is not `id`, and that store reports the entity. |
| IdRecycling.ExecutionDeletesUndefined | src/plugins/core/idRecycling/systems/recycling.ts:63-70 | An undefined entry on death's door deletes every listed component but `id`, each for a real reference without an id, which extraction turns into a delete without an id; nothing else produces such a delete. |
| IdRecycling.MaxOf | src/plugins/core/idRecycling/systems/maxID.ts:12-32 | A result exactly when every value is a number; it is then one of them and at least every one. |
| IdRecycling.UpdateMaxID | src/plugins/core/idRecycling/systems/maxID.ts:12-32 | updateMaxID: nothing when no id was created; otherwise an intention that sets max-id to the largest created id when that exceeds the current one, and an empty intention when it does not. |
| IdRecycling.UpdateMaxIdNeverLowers | src/plugins/core/idRecycling/systems/maxID.ts:12-32 | Once applied, max-id is never lowered, and it is at least every id created when they are all numbers and max-id was a number or unset. |
| IdRecycling.UpdateMaxIdExamples | src/plugins/core/idRecycling/index.test.ts:81-101 | The documented behaviour: a first entity created makes max-id 0; a second, 1; creating 1 again leaves it at 1. |
| StageBatches.RefreshedCache | src/plugins/core/dependencies.ts:36-44 | The cache's stages plus the changed ones; each changed stage holds its rebuilt batches and every other stage keeps its cached value. |
| StageBatches.RefreshStages | src/plugins/core/dependencies.ts:36-44 | The reduce over the changed stages: each in turn gets its batches rebuilt on top of the cache. The world is only read. |
| StageBatches.UpdateStageBatches | src/plugins/core/dependencies.ts:12-49 | updateStageBatches: nothing without a `set-->stage-changes` event or when no stage changed. With no cache every stage is rebuilt, which also stores the cache in the world; otherwise only the changed stages are rebuilt on top of the cache. Either way the proposal sets the cache and deletes stage-changes. `rank` witnesses that no rebuilt stage has a cycle: every stage without a cache, only the changed stages with one. |
| StageBatches.ProposeCacheWrite | src/plugins/core/dependencies.ts:46-48 | `new Intention().setResource(stage-batches, …).deleteResource(stage-changes)`. |
| StageBatches.RefreshKeepsUnchangedStages | src/plugins/core/dependencies.ts:36-44 | After a refresh every changed stage holds its rebuilt batches, each of which respects the stage's dependencies, and every stage that did not change keeps its cached batches untouched. |
| LegacyChanges.DeletionIdValues | src/plugins/core/changes.ts:97-105 | The id of each `delete-->id` event as a value: undefined when it has none. |
| LegacyChanges.LegacyEntityDeletionCleanup | src/plugins/core/changes.ts:97-105 | entityDeletionCleanup, older version: the id of every `delete-->id` event, undefined included, added to death's door; nothing when there are no such events. It has no delete-all fallback. |
| LegacyChanges.LegacyCleanupAgreesWhenNamed | src/plugins/core/changes.ts:97-105 | When every deletion names its id, both versions queue the same entries. |
| LegacyChanges.LegacyCleanupQueuesUndefined | src/plugins/core/changes.ts:97-105 | A delete-all (an event with no id) puts `undefined` on death's door in the older version, where the current one queues every live id instead. |
| LegacyChanges.LegacyAddModifiedEvents | src/plugins/core/changes.ts:147-174 | addModifiedEvents, older version: like the current one, but delete changes get no `modified` event either. |
| LegacyChanges.LegacyModifiedExactly | src/plugins/core/changes.ts:147-174 | The older version emits a `modified` event for a recorded change exactly when it is neither a delete nor a change event. |
| LegacyChanges.DeleteOnlyLogDiffers | src/plugins/core/changes.ts:147-174 | A world whose only recorded change is a component delete: the current version announces it as modified, the older one proposes nothing. |
| SystemResultsModel.CreateSystemChange | src/lib/system.ts:29-36 | createSystemChange: the four parts packed unchanged. |
| SystemResultsModel.LegacyChangeEventName | src/lib/system.ts:22-27 | The name starts with the method and ends with the key, joined by `--`. |
| SystemResultsModel.LegacyNameIsNotChangeEvent | src/lib/system.ts:22-27 | The older names are not change events for the current kernel: when neither part contains `>`, the name never contains `-->`. |
| SystemResultsModel.LegacyAndCurrentNamesDiffer | src/lib/system.ts:22-27 | The same kind of change under both names: `add--hp` against `add-->hp`. |
| SystemResultsModel.SystemResults.AddChange | src/lib/system.ts:45-47 | The result holds the old changes followed by the new one; the list it was built from is untouched. |
| SystemResultsModel.SystemResults.Merge | src/lib/system.ts:53-55 | merge: this list's changes followed by the other's. |
| SystemResultsModel.SystemResults.AddChanges | src/lib/system.ts:49-51 | The result holds the old changes followed by exactly the given ones. |
| SystemResultsModel.SystemResults.AddAt | src/lib/system.ts:57-64 | Exactly one change is appended: an `add` at the path with the values and ids. |
| SystemResultsModel.SystemResults.SetAt | src/lib/system.ts:66-73 | Exactly one change is appended: a `set` at the path with the values and ids. |
| SystemResultsModel.SystemResults.UpdateAt | src/lib/system.ts:75-82 | Exactly one change is appended: an `update` at the path with the function and ids. |
| SystemResultsModel.SystemResults.DeleteAt | src/lib/system.ts:84-91 | Exactly one change is appended: a `delete` at the path carrying the given values (the keys to delete) and ids. |
| SystemResultsModel.SystemResults.AddBundle | src/lib/system.ts:93-102 | addBundle: one `add` per entry, under `components/<name>`, in entry order, all naming the same ids. |
| SystemResultsModel.SystemResults.AddComponents | src/lib/system.ts:104-111 | Exactly one `add` is appended, at `components/<name>`. |
| SystemResultsModel.SystemResults.SetComponents | src/lib/system.ts:113-120 | Exactly one `set` is appended, at `components/<name>`. |
| SystemResultsModel.SystemResults.DeleteComponents | src/lib/system.ts:122-129 | Exactly one `delete` is appended, at `components/<name>`. |
| SystemResultsModel.SystemResults.UpdateComponents | src/lib/system.ts:131-138 | Exactly one `update` is appended, at `components/<name>`. |
| SystemResultsModel.SystemResults.AddResource | src/lib/system.ts:140-147 | Exactly one `add` is appended, at `resources/<name>`. |
| SystemResultsModel.SystemResults.SetResource | src/lib/system.ts:149-156 | Exactly one `set` is appended, at `resources/<name>`. |
| SystemResultsModel.SystemResults.DeleteResource | src/lib/system.ts:158-165 | Exactly one `delete` is appended, at `resources/<name>`. |
| SystemResultsModel.SystemResults.UpdateResource | src/lib/system.ts:167-174 | Exactly one `update` is appended, at `resources/<name>`. |
| SystemResultsModel.SystemResults.AddEvents | src/lib/system.ts:176-179 | Exactly one `add` is appended, at `events/<name>`. |
| SystemResultsModel.SystemResults.SetEvents | src/lib/system.ts:181-184 | Exactly one `set` is appended, at `events/<name>`. |
| SystemResultsModel.SystemResults.DeleteEvents | src/lib/system.ts:186-193 | Exactly one `delete` is appended, at `events/<name>`. |
| SystemResultsModel.SystemResults.UpdateEvents | src/lib/system.ts:195-202 | Exactly one `update` is appended, at `events/<name>`. |
| SystemResultsModel.NewSystemResults | src/lib/system.ts:41-43 | A new list holds no changes. |
| SystemResultsModel.MergeIsMonoid | src/lib/system.ts:53-55 | Merging is associative, and the empty list is its unit on both sides. |
| SystemResultsModel.BuildersArePersistent | src/lib/system.ts:45-102 | Building is persistent: a builder applied to a list leaves that list as it was, and the list built from it starts with the old changes. |
| SystemResultsModel.BundleExample | src/lib/system.test.ts:26-40 | The documented bundle: two components for entity 1 give two adds, both naming 1. |
| SystemResultsModel.BundleAddsComponents | src/lib/system.ts:93-102 | Every change a bundle adds is an `add` of a component named in the bundle, naming the given ids. |

## Left out

- Async scheduling is not modelled: `applyStage`, `applyIndividualStage`, `applySystemsBatch`, `step`, `stepN` and `play` run user callbacks concurrently. The same goes for `addSystem`, `addStageDependency` (and its apparent misreading at `src/lib/world.ts:206`) and the doubled `pre-` stage. The systems modelled here are pure functions of a world, and their proposals are applied by `World.ApplyIntention`.
- The timer plugin, `defsys`, `requireEvents`, `nameSystem`, the older `plugins/core/ids.ts` and `plugins/core/index.ts`, the plugin wiring, logging and debug systems are not modelled. They rely on clocks, floating point or function-name reflection, or only register systems.
- `hash_cyrb53` is a parameter (`hash: DependencyKey -> int`). It relies on JavaScript's 32-bit `Math.imul` and UTF-16 code units. The key it hashes is the node list and each dependency set as a sorted list (`Dependencies.DependencyLists`); `json-stable-stringify` is not modelled, the key is hashed as a value. `localeCompare` is read as lexicographic order on characters.
- Dependencies.FindDepths: requires an acyclic graph, witnessed by a ghost `rank`. On a cycle that depends, directly or not, on a leaf, the source throws: the graph is built non-circular (`src/lib/dependencies.ts:35`), so `dependantsOf` (line 80) throws when its traversal meets the cycle. A cycle that no leaf reaches is never dequeued, and its nodes are silently left out of the result.
- Worlds.World.BuildStageBatches: the same acyclicity precondition (`StageRanked`). Batches are sets, so the order of systems within one batch (insertion order in the source) is not modelled, and nor is the mapping back from names to system objects.
- Worlds.CreateEntities: requires a max-id of at least -1, because entity ids are natural numbers here. A lower number in the resource would make the source hand out negative ids. Math.max's coercion of values that are not numbers is read as "no update" (`IdRecycling.MaxOf`).
- Worlds.ComponentsForEntity: requires every listed key to still hold a store. The source would call `hasEntity` on `undefined` and throw.
- IdRecycling.DeletedIds: on the delete-all path it requires every listed key to still hold a store, for the same reason.
- IdRecycling.ExecuteEntities: when death's door is not empty it requires every listed key to still hold a store, because `getComponentsForEntity` would call `hasEntity` on `undefined` and throw.
- Worlds.World.DeleteEntity: requires every listed key to still hold a store. The source calls `remove` on each store in turn and throws at an `undefined` one, after the stores before it have already lost the id; that partial effect and the throw are not modelled.
- Worlds.World.DeleteEntities: the same requirement and the same unmodelled throw.
- Worlds.ApplyResourceChangeSpec: a resource change without a method leaves the world as it was, after `ApplyChangeSpec` has logged the raw change. In the source the switch has no default, so `applyChange` returns `undefined`, and `applyIntention` then throws on its next change, or returns `undefined` when it was the last. No builder in the model makes such a resource change; only `addBundle`'s records lack a method, and they are component changes.
- Util.ObjModify: a path through a value that is not a record makes the edit fail. In JavaScript the final `delete` on a primitive does not throw, and records created along the path before a later failure stay. The world only edits `resources/<key>`, where neither case arises.
- Worlds.QueryIsIntersection: holds only for stores without stale members (`Tidy`), because `hasEntity` can report removed ids (see Findings).
- The world keeps each store as a value, not a shared object. Aliasing between a store held by a caller and the world's copy is not modelled. Neither is the in-place mutation of the revival `Set` before it is written back; the model writes the new set as a value.
- Resource values are read defensively: a revival stack that is not an id set, a stage-changes value that is not a name set, and a stage-batches cache that is not a record are each read as empty.
- Event values other than recorded changes are carried as opaque values. `getCreatedIds` and `getDeletedIDs` read only the fields they need.
- JavaScript's ordering of integer-like object keys before other keys is not modelled. Records keep insertion order only where the model needs it: the component-store key list.
- `getResource`, `getEntities`, `createEntity` and the first/second helpers of `util.ts` are one-line wrappers over modelled members and have no members of their own.
- The `ID` namespace of `src/lib/entity.ts:13-18` only renames `fixedID` and `relativeID` (`fixed`/`real` and `relative`/`unborn`); the model uses `Entities.FixedID` and `Entities.RelativeID` directly.

## Findings

| source | as written | input that shows it | evidently intended | confidence | as-written member | corrected member |
|---|---|---|---|---|---|---|
| src/lib/store.ts:55-58 | `hasEntity` checks `dense[sparse[id]] == id` but not `sparse[id] < n`, so an id removed from the last live slot is still reported | insert 1 and 2, remove 2: `hasEntity(2)` is true, a later `insert(2, c)` writes to a dead slot and is lost | membership means "in a live slot" | high, not executed | Store.StaleMembershipExample | Store.IsLive, Store.IsLiveIffListed |
| src/lib/store.ts:114-134 | `remove` trusts the stale `hasEntity`, so removing an already-removed id drops another entity | insert 1 and 2, remove 2, remove 2 again: the store is emptied and entity 1 is gone | removing an id that is not live does nothing | high, not executed | Store.RemoveStale | Store.RemoveIntended |
| src/lib/store.ts:172-178 | `update` with an id writes at `sparse[id]` without checking membership | insert 1 and 2, remove 1, update 1: entity 2's component is rewritten | updating an id that is not live does nothing | high, not executed | Store.UpdateRemovedIdExample | Store.UpdateIntended |
| src/lib/systems/change.ts:46-50 | `isEventChange` tests `path[0] === 'components'`, the test of `isComponentChange` | an `add` to `events/tick` is not an event change; an `add` to `components/pos` is | test `path[0] === 'events'` | high, not executed | Changes.IsEventChange, Changes.EventChangeMisclassified | Changes.IsEventChangeIntended |
| src/lib/systems/intention.ts:125-142 | `Intention.addBundle` builds records without a `method` field; when applied, `handleChange` matches no case and the world stores `undefined` as the component's store | `addBundle({hp: 1})` applied to any world: the `hp` store is replaced by `undefined` | one `add` per bundle entry, as `addComponent` builds | high, not executed | Intentions.Intention.AddBundleAsWritten, Intentions.BundleRecordsAsWritten, Worlds.ForwardWithoutMethodLosesStore | Intentions.Intention.AddBundle, Intentions.AddBundleSpec |

# A verified model of react-mirror's reconciler core

react-mirror is a small re-implementation of React in TypeScript. This
project models its core in Dafny and proves properties of the model:

- lanes and fiber flags as 32-bit sets;
- fibers, the host root, and `createWorkInProgress`;
- the circular update queue and `processUpdateQueue`;
- single-child reconciliation (`reconcileSingleElement`,
  `reconcileSingleTextNode`, `placeSingleChild`, `reconcileChildFibers` and
  `mountChildFibers`);
- `beginWork`, `completeWork` and the mutation phase of `commitWork`;
- the work loop from `scheduleUpdateOnFiber` to `commitRoot`;
- `useState` on mount, with the dispatcher check and `dispatchSetState`;
- the context provider stack;
- `jsx`;
- DOM event delegation with synthetic events;
- the noop renderer's conversion of its host tree back to JSX, and its root
  counter.

How the JavaScript is represented:

- **Values.** JavaScript values are one datatype, `ReactTypes.Value`.
  Objects are property maps compared by contents. Functions are known by
  identity, and numbers are integers. Property reads on `null` and
  `undefined` throw; every such TypeError is an explicit error result.
- **Fibers.** Fiber nodes live in an arena, the class `Fibers.FiberHeap`.
  It is a map from fiber identities to fiber records. Each field assignment
  in the source replaces one record in the map.
- **Termination.** A ghost rank orders the arena: `child` links go up in
  rank, `return` links go down, and alternates share a rank. This is what
  makes every walk over the tree terminate.
- **`sibling`.** In this snapshot every write of `sibling` stores `null`.
  So `sibling` is always `null`, and the arena invariant says so. Each loop
  over siblings is either modelled over a chain of one fiber or shown never
  to run.
- **Mutable state.** Update rings, hooks, roots, the work loop's
  `workInProgress`, the context stack, native events and the host's
  operation log are classes whose methods change their fields.
- **The host.** The DOM or noop host is an operation log. `createInstance`,
  `createTextInstance`, `appendInitialChild` and `appendChildToContainer`
  append to it.
- **Functions in the source.** Pure code such as `childToJsx`, the
  lane functions, key handling in `jsx`, and callback-name lookup is
  modelled as Dafny functions. Lemmas state what the source promises about
  them.
- **`__DEV__`.** It is taken to be true.

Each loop of the source is a `while` loop with invariants. Each such method
is proved against a specification function. Examples:

- `ProcessUpdateQueue` is proved against `NewState` and `BaseRecords`;
- `ReconcileSingleElement` against `ElementPlan`;
- `CommitMutationEffects` against `CommitUp`;
- `CollectPaths` against `Callbacks`;
- `RunWorkLoop` against the begin and complete trace of the path it walks.

Lemmas then prove the intended properties of those functions.

## Model

| member | source | states |
|---|---|---|
| Lanes.MergeLanes | packages/react-reconciler/src/fiberLanes.ts:22-27 | bit i of the result is set iff it is set in either lane set |
| Lanes.GetHighestPriorityLane | packages/react-reconciler/src/fiberLanes.ts:44-48 | NoLane exactly for NoLanes; otherwise a single bit of `lanes` with no lower bit of `lanes` set |
| Lanes.SubsetBits | packages/react-reconciler/src/fiberLanes.ts:50-55 | `isSubsetOfLanes(set, subSet)` holds iff every bit of `subSet` is a bit of `set` |
| Lanes.RemoveLanes | packages/react-reconciler/src/fiberLanes.ts:61 | bit i survives iff it was set in `lanes` and is not a bit of `lane` |
| Lanes.LanesToSchedulerPriority | packages/react-reconciler/src/fiberLanes.ts:67-81 | the priority is decided by the lowest set bit: bit 0 Immediate, bit 1 UserBlocking, bit 2 Normal, otherwise Idle |
| Lanes.SchedulerPriorityToLane | packages/react-reconciler/src/fiberLanes.ts:83-98 | Immediate↔SyncLane, UserBlocking↔InputContinuousLane, Normal↔DefaultLane, and every other priority↔NoLane, each an iff |
| Lanes.RequestUpdateLane | packages/react-reconciler/src/fiberLanes.ts:29-42 | TransitionLane during a transition; otherwise the lane of the current scheduler priority: SyncLane for Immediate, InputContinuousLane for UserBlocking, DefaultLane for Normal and NoLane for Low and Idle |
| Lanes.LaneConstants | packages/react-reconciler/src/fiberLanes.ts:14-20 | the five lanes are distinct single bits in increasing order, SyncLane bit 0, NoLane and NoLanes zero |
| Lanes.MergeLanesAlgebra | packages/react-reconciler/src/fiberLanes.ts:22-27 | union is commutative, associative and idempotent, with NoLanes as identity |
| Lanes.SubsetBasics | packages/react-reconciler/src/fiberLanes.ts:50-55 | NoLane is a subset of every set, every set of itself, and each operand of its union |
| Lanes.SchedulerPriorityOfHighestLane | packages/react-reconciler/src/fiberLanes.ts:67-70 | the priority of a lane set equals the priority of its highest-priority lane |
| Lanes.SchedulerRoundTrip | packages/react-reconciler/src/fiberLanes.ts:67-98 | the three mapped lanes and priorities survive the round trip; Transition, Idle and NoLanes map to Idle priority |
| FiberFlags.AddFlags | packages/react-reconciler/src/completeWork.ts:20 | bit i of `flags \|= f` is set iff it is set in `flags` or in `f` |
| FiberFlags.ClearFlags | packages/react-reconciler/src/commitWork.ts:59 | bit i of `flags &= ~f` is set iff it is set in `flags` and not in `f` |
| FiberFlags.FlagConstants | packages/react-reconciler/src/fiberFlags.ts:3-8 | NoFlags is zero and the four flags are pairwise disjoint single bits |
| FiberFlags.MaskContents | packages/react-reconciler/src/fiberFlags.ts:11-15 | a flag set meets MutationMask iff it has Placement, Update or ChildDeletion, and PassiveMask iff it has PassiveEffect or ChildDeletion; the masks share exactly ChildDeletion |
| FiberFlags.ClearPlacement | packages/react-reconciler/src/commitWork.ts:59 | clearing Placement removes bit 0 and keeps every other bit |
| WorkTags.TagNumber | packages/react-reconciler/src/workTags.ts:9-14 | each tag's number is one of 0, 3, 5, 6, 7, 8 |
| WorkTags.TagNumbersDistinct | packages/react-reconciler/src/workTags.ts:9-14 | two tags have the same number iff they are the same tag |
| ReactTypes.Get | packages/react-reconciler/src/beginWork.ts:56 | a property read throws exactly on `undefined` and `null`, gives an object's field, and is otherwise `undefined` |
| ReactTypes.GetOptional | packages/react-reconciler/src/completeWork.ts:59 | `v?.name` gives the field of an object that has it, and `undefined` in every other case |
| ReactTypes.MarkersDistinct | packages/shared/ReactSymbols.ts:1-12 | with symbols available the element marker is `Symbol.for('react.element')` and differs from the fragment marker |
| ReactTypes.NatToDecimal | packages/react/src/jsx.ts:44 | the decimal notation of a number is a non-empty digit string without a leading zero |
| ReactTypes.DecimalRoundTrip | packages/react/src/jsx.ts:44 | reading the decimal notation back gives the number again |
| ReactTypes.JsToString | packages/react/src/jsx.ts:44 | `'' + v` is the string itself, "null", "undefined" or the decimal notation, and throws on a symbol |
| Jsx.ReactElement | packages/react/src/jsx.ts:14-29 | the element object has exactly the fields `$$typeof`, `type`, `key`, `ref`, `props` and `__mark`, with the given values and the element marker |
| Jsx.JsxCall | packages/react/src/jsx.ts:31-80 | the loop over config computes exactly `JsxResult`: the scanned key, ref and props with the children added, wrapped by `ReactElement`, or the scan's TypeError |
| Jsx.ScanThrowPersists | packages/react/src/jsx.ts:40-57 | once a key conversion has thrown, the later properties do not change the outcome |
| Jsx.ScanExcludesKeyAndRef | packages/react/src/jsx.ts:42-53 | `key` and `ref` never become props |
| Jsx.ScanProps | packages/react/src/jsx.ts:54-56 | a name other than key or ref is a prop iff some own property of config has that name, and its value is the one of the last such property |
| Jsx.ScanKeyAbsent | packages/react/src/jsx.ts:37-46 | with no defined `key` property the key stays `null` |
| Jsx.ScanKeyLast | packages/react/src/jsx.ts:42-46 | with a defined `key` property the key is the string conversion of the last defined one |
| Jsx.ScanRefAbsent | packages/react/src/jsx.ts:39-52 | with no defined `ref` property the ref stays `null` |
| Jsx.ScanRefLast | packages/react/src/jsx.ts:48-52 | with a defined `ref` property the ref is the last defined one |
| Jsx.ScanThrows | packages/react/src/jsx.ts:43-45 | the scan throws iff some defined `key` property cannot be converted to a string |
| Jsx.NullKeyBecomesString | packages/react/src/jsx.ts:43-45 | only an `undefined` key is skipped, so a `null` key becomes the string "null", and a symbol key throws |
| Jsx.ChildrenArguments | packages/react/src/jsx.ts:69-78 | one extra argument is `props.children` as is, two or more are an array of them in order, none leaves props alone; other props are untouched |
| Fibers.NormalizeKey | packages/react-reconciler/src/fiber.ts:52 | `key \|\| null`: a truthy key is kept and every falsy key becomes `null` |
| Fibers.NewFiberDefaults | packages/react-reconciler/src/fiber.ts:45-79 | a new fiber has no flags, no links, index 0, no deletions, no stateNode and the given pending props; the keys `""` and `0` become `null` while `"a"` stays |
| Fibers.IntendedKey | packages/react-reconciler/src/fiber.ts:52 | the key a fiber is evidently meant to keep is `null` exactly for a `null` or `undefined` key, and the key itself otherwise |
| Fibers.EmptyKeyKeptAsIntended | packages/react-reconciler/src/fiber.ts:52 | as written the key `""` becomes `null`; the intended key keeps `""` and every other string key, and agrees with `key \|\| null` on every truthy key |
| Fibers.FiberHeap.Alloc | packages/react-reconciler/src/fiber.ts:45-79 | allocating a fiber adds exactly one fresh node with the given record and keeps every other node |
| Fibers.FiberRootNode.constructor | packages/react-reconciler/src/fiber.ts:101-117 | the root holds the container and the host root fiber, has no finished work, no pending or finished lanes, no passive effects and no callback, and the host root fiber's `stateNode` becomes the root |
| Fibers.FiberRootNode.MarkRootFinished | packages/react-reconciler/src/fiberLanes.ts:57-65 | `pendingLanes` loses the bits of `lane`; every other field of the root is kept |
| Fibers.FiberHeap.AttachRoot | packages/react-reconciler/src/fiber.ts:107 | only the host root's `stateNode` changes, and the root joins the arena's roots |
| Fibers.CreateWorkInProgress | packages/react-reconciler/src/fiber.ts:120-151 | without an alternate a fresh node with current's tag, key and stateNode is linked to current both ways; with one, that node is reused with new props and cleared flags, subtree flags and deletions; in both cases type, update queue, child and memoized fields are current's, and nothing else changes |
| Fibers.MountWorkInProgress | packages/react-reconciler/src/fiber.ts:126-135 | the mount branch: a fresh node of current's rank is added and linked both ways |
| Fibers.ResetWorkInProgress | packages/react-reconciler/src/fiber.ts:136-150 | the update branch: only the existing alternate's record changes |
| Fibers.ElementTag | packages/react-reconciler/src/fiber.ts:157-162 | the tag is HostComponent iff the element type is a string, and FunctionComponent otherwise |
| Fibers.CreateFiberFromElement | packages/react-reconciler/src/fiber.ts:153-176 | one fresh node holding the element's tag, type, key and props; nothing else changes |
| Fibers.CreateFiberFromFragment | packages/react-reconciler/src/fiber.ts:178-188 | one fresh Fragment node whose pending props are the elements; nothing else changes |
| Fibers.TopAncestorHasNoParent | packages/react-reconciler/src/workLoop.ts:32-46 | climbing `return` links from a node ends at a node without a parent, of a rank no higher |
| ChildFibers.Chain | packages/react-reconciler/src/childFiber.ts:43-47 | the walk along `sibling` from a fiber: empty exactly for no fiber, and starting at that fiber otherwise |
| ChildFibers.AddDeletionsAppend | packages/react-reconciler/src/childFiber.ts:20-34 | deleting one list of children and then another is deleting their concatenation |
| ChildFibers.AddDeletionsEffect | packages/react-reconciler/src/childFiber.ts:24-33 | deleting children appends them, in order, to the parent's `deletions`; ChildDeletion is added only when the list is first created; nothing else of the parent changes |
| ChildFibers.DeletionCases | packages/react-reconciler/src/childFiber.ts:20-34 | without side-effect tracking deleting changes nothing; the first deletion creates `[child]` and sets ChildDeletion; later ones only append |
| ChildFibers.DeleteChild | packages/react-reconciler/src/childFiber.ts:20-34 | only the parent's record changes, and it becomes the record with `childToDelete` deleted |
| ChildFibers.DeleteRemainingChildren | packages/react-reconciler/src/childFiber.ts:36-48 | only the parent's record changes: every fiber of the old chain is deleted, in sibling order |
| ChildFibers.ElementPlan | packages/react-reconciler/src/childFiber.ts:56-98 | the fiber the loop of `reconcileSingleElement` reuses is one of the arena's fibers |
| ChildFibers.TextPlan | packages/react-reconciler/src/childFiber.ts:112-129 | the fiber the loop of `reconcileSingleTextNode` reuses is one of the arena's fibers |
| ChildFibers.ElementPlanNoMatch | packages/react-reconciler/src/childFiber.ts:56-98 | when no old fiber has the element's key, all are deleted and none is reused |
| ChildFibers.ElementPlanFirstMatch | packages/react-reconciler/src/childFiber.ts:56-98 | at the first old fiber with the element's key, the fibers before it are deleted; it is reused and the rest deleted when `$$typeof` and type match, it and the rest are deleted when the type differs, and nothing more is deleted when the value is not a React element |
| ChildFibers.TextPlanNoText | packages/react-reconciler/src/childFiber.ts:112-129 | when no old fiber is a HostText, all are deleted and none is reused |
| ChildFibers.TextPlanFirstText | packages/react-reconciler/src/childFiber.ts:112-129 | the first HostText is reused and every other old fiber is deleted, in order |
| ChildFibers.ElementPlanReusesChain | packages/react-reconciler/src/childFiber.ts:56-98 | the reused fiber is one of the old chain |
| ChildFibers.TextPlanReusesChain | packages/react-reconciler/src/childFiber.ts:112-129 | the reused fiber is one of the old chain |
| ChildFibers.UseFiber | packages/react-reconciler/src/childFiber.ts:208-219 | the clone is `createWorkInProgress(fiber, pendingProps)` with index 0 and no sibling: the existing alternate, or a fresh fiber; exactly the fiber and its clone change |
| ChildFibers.SetReturn | packages/react-reconciler/src/childFiber.ts:64 | only the fiber's `return` changes |
| ChildFibers.UseFiberUnder | packages/react-reconciler/src/childFiber.ts:64-65 | `useFiber` then `return = returnFiber`: the old fiber gets the clone as alternate, the clone gets the new props and parent |
| ChildFibers.ReuseFiber | packages/react-reconciler/src/childFiber.ts:62-77 | the reuse branch: the clone as above, and the rest of the old chain deleted from the parent |
| ChildFibers.NewElementChild | packages/react-reconciler/src/childFiber.ts:100-103 | one fresh fiber, one rank below the parent, built from the element with `return = returnFiber`; nothing else changes |
| ChildFibers.NewTextChild | packages/react-reconciler/src/childFiber.ts:130-136 | one fresh HostText fiber with `{ content }` and `return = returnFiber`; nothing else changes |
| ChildFibers.DeletedAppend | packages/react-reconciler/src/childFiber.ts:36-48 | deleting in two steps is deleting the concatenation |
| ChildFibers.DeletedKeepsLinks | packages/react-reconciler/src/childFiber.ts:20-34 | deleting never changes the parent's child, return, sibling or alternate |
| ChildFibers.ReuseInLoop | packages/react-reconciler/src/childFiber.ts:62-77 | the reuse branch inside a loop leaves the arena the plan describes |
| ChildFibers.SkipChild | packages/react-reconciler/src/childFiber.ts:93-97 | an old fiber passed over is deleted and the walk moves to its sibling |
| ChildFibers.ElementMatch | packages/react-reconciler/src/childFiber.ts:58-92 | at the first old fiber with the element's key the loop ends with the outcome `ElementPlan` gives |
| ChildFibers.ElementMismatch | packages/react-reconciler/src/childFiber.ts:79-92 | a key match that cannot be reused: with a React element the fiber and the rest are deleted, otherwise nothing is; nothing is reused |
| ChildFibers.ElementLoop | packages/react-reconciler/src/childFiber.ts:56-98 | the loop's outcome is the one `ElementPlan` gives; nothing is allocated when nothing is reused |
| ChildFibers.ReconcileSingleElement | packages/react-reconciler/src/childFiber.ts:50-104 | the returned fiber is below the parent and the arena is the one `ElementPlan` describes, with a new element fiber when nothing is reused |
| ChildFibers.TextMatch | packages/react-reconciler/src/childFiber.ts:113-125 | the reuse branch of the text loop gives the outcome `TextPlan` gives |
| ChildFibers.TextLoop | packages/react-reconciler/src/childFiber.ts:112-129 | the loop's outcome is the one `TextPlan` gives; nothing is allocated when nothing is reused |
| ChildFibers.ReconcileSingleTextNode | packages/react-reconciler/src/childFiber.ts:106-137 | the returned fiber is below the parent and the arena is the one `TextPlan` describes, with a new HostText fiber when nothing is reused |
| ChildFibers.PlaceSingleChild | packages/react-reconciler/src/childFiber.ts:139-149 | only the fiber's flags change: Placement is added when tracking and the fiber has no alternate |
| ChildFibers.ReconciledFiber | packages/react-reconciler/src/childFiber.ts:100-149 | the reconciled fiber has `returnFiber` as its `return`; a newly created one has no alternate and is marked Placement exactly when tracking; a reused one without a previous work-in-progress gets the old fiber as alternate and no Placement |
| ChildFibers.CreatedFibers | packages/react-reconciler/src/childFiber.ts:100-136 | a created element fiber has the element's tag, normalised key, type and props; a created text fiber is HostText with `{ content }` and a null key |
| ChildFibers.PlaceElement | packages/react-reconciler/src/childFiber.ts:162-168 | `placeSingleChild(reconcileSingleElement(...))` leaves the reconciled arena with the fiber placed |
| ChildFibers.PlaceText | packages/react-reconciler/src/childFiber.ts:185-191 | `placeSingleChild(reconcileSingleTextNode(...))` leaves the reconciled arena with the fiber placed |
| ChildFibers.ReconciledChildRecord | packages/react-reconciler/src/childFiber.ts:151-205 | the child returned has `returnFiber` as parent, the element's props or `{ content }` as pending props, is no host root, and is marked Placement exactly when tracking and it has no alternate |
| ChildFibers.ReconcileChildFibers | packages/react-reconciler/src/childFiber.ts:151-224 | a React element and a string or number are each reconciled as a single child and placed; anything else deletes the old child and gives null; `track` is the difference between reconcileChildFibers and mountChildFibers |
| ChildFibers.DeleteCurrent | packages/react-reconciler/src/childFiber.ts:194-196 | only the parent's record changes: the old child, the whole chain as `sibling` is always null, is deleted |
| UpdateQueues.Update.constructor | packages/react-reconciler/src/updateQueue.ts:22-31 | a new update holds the action and lane and points nowhere |
| UpdateQueues.UpdateQueue.constructor | packages/react-reconciler/src/updateQueue.ts:33-40 | a new queue has no pending update, no dispatch, and an empty ring |
| UpdateQueues.EnqueueUpdate | packages/react-reconciler/src/updateQueue.ts:42-54 | the new update becomes `pending`, the ring read from `pending.next` is the old ring followed by the new update, an update enqueued on an empty queue points to itself, and no update's action or lane changes |
| UpdateQueues.Records | packages/react-reconciler/src/updateQueue.ts:9-13 | the action and lane of each update of a ring, in ring order |
| UpdateQueues.FirstSkip | packages/react-reconciler/src/updateQueue.ts:87-101 | every update before the index is included and the update at the index, if any, is skipped |
| UpdateQueues.BaseRecords | packages/react-reconciler/src/updateQueue.ts:93-116 | the base ring holds one clone for each update from the first skipped one on |
| UpdateQueues.FirstSkipOfPrefix | packages/react-reconciler/src/updateQueue.ts:85-127 | adding one update at the end keeps an earlier first skip, and otherwise puts the first skip at the new update when it is skipped |
| UpdateQueues.WalkState | packages/react-reconciler/src/updateQueue.ts:85-127 | the state the do-while computes is `NewState` of the updates |
| UpdateQueues.WalkBaseState | packages/react-reconciler/src/updateQueue.ts:97-131 | some update is skipped exactly when the loop records a skip; the base state is then the state reached before the first skipped update, and the input state otherwise |
| UpdateQueues.BaseRecordsOfPrefix | packages/react-reconciler/src/updateQueue.ts:102-116 | after the first skip, every further update adds exactly one clone at the end |
| UpdateQueues.WalkBaseRecords | packages/react-reconciler/src/updateQueue.ts:93-116 | the clones the loop makes are exactly `BaseRecords`: skipped updates keep their lane, included ones later than a skip get NoLane, in order |
| UpdateQueues.AppendClone | packages/react-reconciler/src/updateQueue.ts:93-115 | a fresh clone with the given action and lane is linked after the last one |
| UpdateQueues.WalkRing | packages/react-reconciler/src/updateQueue.ts:72-127 | the do-while visits each update of the ring exactly once, oldest first, and its state, base state and fresh clone chain are what `Walk` gives |
| UpdateQueues.CloseChain | packages/react-reconciler/src/updateQueue.ts:129-133 | the last clone points back to the first, closing a ring of the expected records |
| UpdateQueues.ProcessUpdateQueue | packages/react-reconciler/src/updateQueue.ts:56-140 | with no pending update everything is `baseState` and the base queue null; otherwise the memoized state is `NewState` of the ring, the base state is the state before the first skipped update (the final state when none is skipped, with a null base queue), and the base queue is a fresh ring of `BaseRecords` |
| UpdateQueues.LastIncludedWins | packages/react-reconciler/src/updateQueue.ts:117-124 | as written, only the last included update decides the state: a value replaces it and a function is applied to the input `baseState` |
| UpdateQueues.NothingIncluded | packages/react-reconciler/src/updateQueue.ts:85-127 | when every update is skipped, the state is `baseState` |
| UpdateQueues.ValueActionsAgree | packages/react-reconciler/src/updateQueue.ts:117-124 | when every included update carries a value, the code as written agrees with the intended running fold |
| UpdateQueues.FunctionActionsSeeBaseState | packages/react-reconciler/src/updateQueue.ts:121 | two included `n => n + 1` updates on 0 give 1 as written, where the running fold gives 2 |
| UpdateQueues.MissingRenderLane | packages/react-reconciler/src/updateQueue.ts:86-89 | with no render lane an update is included exactly when its lane is 0, and an update without a lane is never included |
| BeginWorks.CurrentChildAbove | packages/react-reconciler/src/beginWork.ts:65-72 | the child of the current fiber lies below `wip` |
| BeginWorks.SetChild | packages/react-reconciler/src/beginWork.ts:68-79 | only `wip.child` changes |
| BeginWorks.ReconcileAgainstCurrent | packages/react-reconciler/src/beginWork.ts:65-80 | with an alternate the tracking reconciler runs against the current fiber's child, without one the non-tracking reconciler against null; the new child lies below `wip` and has `wip` as its parent |
| BeginWorks.ReconcileChildren | packages/react-reconciler/src/beginWork.ts:61-81 | the reconciled arena, with the result stored in `wip.child` |
| BeginWorks.ProcessRootQueue | packages/react-reconciler/src/beginWork.ts:36-45 | `shared.pending` becomes null, and the state is `NewState` of the pending ring without a render lane |
| BeginWorks.UpdateHostRoot | packages/react-reconciler/src/beginWork.ts:35-52 | a null update queue throws and changes nothing; otherwise the queue is emptied, the processed state is stored as `memoizedState`, reconciled as the children, and `wip.child` is returned; only `wip` and fibers below it change |
| BeginWorks.UpdateHostComponent | packages/react-reconciler/src/beginWork.ts:54-59 | reading `children` of null or undefined props throws and changes nothing; otherwise `pendingProps.children` is reconciled and `wip.child` returned; only `wip` and fibers below it change |
| BeginWorks.ReconciledBelow | packages/react-reconciler/src/beginWork.ts:61-81 | reconciling rewrites only `wip` and fibers of a higher rank |
| BeginWorks.RootReconciledBelow | packages/react-reconciler/src/beginWork.ts:35-52 | storing the state and reconciling rewrites only `wip` and fibers of a higher rank |
| BeginWorks.DepthDecreases | packages/react-reconciler/src/beginWork.ts:54-59 | the new child of a host component has pending props that nest less deeply than its parent's |
| BeginWorks.BeginWork | packages/react-reconciler/src/beginWork.ts:17-33 | HostRoot throws exactly on a null queue, HostComponent exactly on props without children, every other tag returns null and changes nothing; a returned child is `wip.child`, lies below `wip`, has `wip` as its parent and is no host root |
| BeginWorks.RootUpdatesNeedLaneZero | packages/react-reconciler/src/beginWork.ts:42-45 | with no render lane, updates whose lane is not 0 leave the root state as it was, and a last update of lane 0 carrying a value sets it |
| BeginWorks.RootUpdatesWithSyncLane | packages/react-reconciler/src/beginWork.ts:42-45 | with SyncLane passed as the render lane, every SyncLane update is included, and a last SyncLane update carrying a value becomes the root state |
| HostConfig.Host.CreateInstanceOp | packages/react-dom/src/hostConfig.ts:15-25 | `createInstance(type, props)` returns the next fresh handle and logs its creation with the type and props |
| HostConfig.Host.CreateTextInstanceOp | packages/react-dom/src/hostConfig.ts:34-38 | `createTextInstance(content)` returns the next fresh handle and logs its creation with the content |
| HostConfig.Host.AppendInitialChildOp | packages/react-dom/src/hostConfig.ts:27-32 | `appendInitialChild(parent, child)` logs the append and allocates nothing |
| HostConfig.Host.AppendChildToContainerOp | packages/react-dom/src/hostConfig.ts:40-41 | `appendChildToContainer(parent, child)` logs the append and allocates nothing |
| CompleteWorks.MarkUpdate | packages/react-reconciler/src/completeWork.ts:19-21 | only the fiber's flags change, gaining Update |
| CompleteWorks.ChildFlagsBits | packages/react-reconciler/src/completeWork.ts:113-124 | a bit is in the bubbled flags exactly when some child has it in its `flags` or `subtreeFlags` |
| CompleteWorks.BubbleProperties | packages/react-reconciler/src/completeWork.ts:113-124 | `subtreeFlags` becomes the union of the children's flags and subtree flags, replacing its old value, and every child gets `wip` as its `return`; `wip`'s own `return` is kept |
| CompleteWorks.DescentRets | packages/react-reconciler/src/completeWork.ts:90-93 | the descent of `appendAllChildren` changes `return` links only |
| CompleteWorks.DescentAppends | packages/react-reconciler/src/completeWork.ts:84-94 | the descent appends exactly the instance of the first host fiber on the walk down `child` links, and nothing when the walk ends at a leaf |
| CompleteWorks.RetsStep | packages/react-reconciler/src/completeWork.ts:91 | setting one more `return` link keeps every other field |
| CompleteWorks.AppendAllChildren | packages/react-reconciler/src/completeWork.ts:78-111 | the arena and the host log after the whole walk are those of the descent from the child of `wip`; `wip` itself is unchanged and no handle is allocated |
| CompleteWorks.Descend | packages/react-reconciler/src/completeWork.ts:84-94 | the loop down `child` links ends at a fiber below `wip` with the arena and log of the descent |
| CompleteWorks.DescendStep | packages/react-reconciler/src/completeWork.ts:85-94 | a host fiber has its instance appended and ends the descent; a fiber with a child points the child's `return` at itself and goes on to the child; a leaf ends the descent |
| CompleteWorks.ClimbBack | packages/react-reconciler/src/completeWork.ts:95-109 | the climb ends at a fiber whose `return` is null or `wip`, no lower in the tree than where it started |
| CompleteWorks.SetStateNode | packages/react-reconciler/src/completeWork.ts:43 | only `wip.stateNode` changes |
| CompleteWorks.CompleteHostComponent | packages/react-reconciler/src/completeWork.ts:29-46 | an update (an alternate and a `stateNode`) only adds Update; a mount creates an instance with `wip.type` and the new props, appends the topmost host descendant to it and stores it in `stateNode`; the flags are then bubbled |
| CompleteWorks.CompleteHostText | packages/react-reconciler/src/completeWork.ts:47-64 | an update reads the old and new `content` (reading either from null or undefined props throws) and adds Update exactly when they differ; a mount creates a text instance from `newProps?.content`; the flags are then bubbled |
| CompleteWorks.CompleteWork | packages/react-reconciler/src/completeWork.ts:23-76 | host components and texts as above; HostRoot, Fragment and FunctionComponent only bubble; any other tag changes nothing; only `wip` and fibers below it change and `wip.return` is kept |
| CompleteWorks.SetReturnsOutside | packages/react-reconciler/src/completeWork.ts:116-122 | pointing the children at `wip` leaves every other fiber alone |
| CompleteWorks.BubbledBelow | packages/react-reconciler/src/completeWork.ts:113-124 | bubbling rewrites `wip`, never its links, and the `return` of its child |
| CompleteWorks.DescentBelow | packages/react-reconciler/src/completeWork.ts:84-94 | the descent from a fiber below rank `r` leaves every fiber of rank at most `r` alone |
| CompleteWorks.ComponentBelow | packages/react-reconciler/src/completeWork.ts:29-46 | completing a host component changes only `wip` and fibers below it |
| CompleteWorks.TextBelow | packages/react-reconciler/src/completeWork.ts:47-64 | completing a host text changes only `wip` and fibers below it |
| CompleteWorks.UpdateMarks | packages/react-reconciler/src/completeWork.ts:19-21 | `markUpdate` sets bit 1 (Update) and keeps every other flag bit |
| CommitWorks.GetHostParent | packages/react-reconciler/src/commitWork.ts:84-105 | the loop returns the stateNode of the nearest HostComponent ancestor, or the container of the nearest HostRoot ancestor, or null when there is neither |
| CommitWorks.AppendPlacementNodeIntoContainer | packages/react-reconciler/src/commitWork.ts:107-137 | a host fiber makes one `appendChildToContainer` call with its stateNode first and the host parent second, as written; any other fiber hands on to its child; no handle is allocated |
| CommitWorks.CommitPlacement | packages/react-reconciler/src/commitWork.ts:63-82 | the host calls are those of `appendPlacementNodeIntoContainer` when there is a host parent, none when there is none, and a throw of `getHostParent` is passed on with no call made |
| CommitWorks.CommitMutationEffectsOnFiber | packages/react-reconciler/src/commitWork.ts:53-61 | only a fiber with Placement is placed, and then exactly its Placement bit is cleared; Update and ChildDeletion are ignored |
| CommitWorks.CommitUpward | packages/react-reconciler/src/commitWork.ts:39-48 | the `up:` loop commits the fiber, then its `return`, and so on to the top, stopping at the first throw |
| CommitWorks.CommitMutationEffects | packages/react-reconciler/src/commitWork.ts:22-51 | the walk goes down `child` links while `subtreeFlags` intersect MutationMask, then commits the climb from where it stopped, with the arena and log `CommitUp` gives |
| CommitWorks.HostParentLinks | packages/react-reconciler/src/commitWork.ts:84-105 | `getHostParent` depends on links, tags and state nodes only, not on flags |
| CommitWorks.PlaceFiberLinks | packages/react-reconciler/src/commitWork.ts:63-82 | what committing a placement does does not depend on flags |
| CommitWorks.RetChain | packages/react-reconciler/src/commitWork.ts:39-48 | the fibers the climb visits are fibers of the arena, none lower in rank than where it started |
| CommitWorks.PlacementLogCons | packages/react-reconciler/src/commitWork.ts:39-48 | the placements of a chain are those of its first fiber followed by those of the rest |
| CommitWorks.NoPlacementClear | packages/react-reconciler/src/commitWork.ts:57-60 | clearing Placement from flags that lack it changes nothing |
| CommitWorks.ClearedOnCons | packages/react-reconciler/src/commitWork.ts:59 | clearing one fiber and then the rest of a chain is clearing the whole chain |
| CommitWorks.ClearedOnNone | packages/react-reconciler/src/commitWork.ts:59 | clearing an empty chain changes nothing |
| CommitWorks.CommitFiberStep | packages/react-reconciler/src/commitWork.ts:53-61 | a successful commit of one fiber clears only its Placement bit, keeps every link and adds its placement calls to the log |
| CommitWorks.FlagsKeepLinks | packages/react-reconciler/src/commitWork.ts:59 | changing one fiber's flags keeps every link |
| CommitWorks.CommitUpUnfold | packages/react-reconciler/src/commitWork.ts:39-48 | one step of the climb: commit the fiber, then go on to its `return` |
| CommitWorks.CommitUpFrom | packages/react-reconciler/src/commitWork.ts:39-48 | a successful climb clears Placement on exactly the fibers of the `return` chain and logs their placements in order, each as on the arena before the climb |
| CommitWorks.CommitUpReference | packages/react-reconciler/src/commitWork.ts:22-61 | the same, stated from the arena at the start: Placement is cleared on exactly the `return` chain, in climb order, and nowhere else |
| CommitWorks.RootPlacementSwapsArguments | packages/react-reconciler/src/commitWork.ts:115-118 | placing a host component directly under a host root calls the host with the component's instance as parent and the root's container as child, the reverse of `appendChildToContainer(container, child)` |
| CommitWorks.IntendedPlacementOps | packages/react-reconciler/src/commitWork.ts:115-118 | every host call of the intended placement has the host parent as its first argument |
| CommitWorks.RootPlacementContainerFirst | packages/react-reconciler/src/commitWork.ts:115-118 | under a host root the intended placement appends the instance to the root's container, and the placement as written is that call with its arguments swapped |
| HostPaths.HostPath | packages/react-reconciler/src/completeWork.ts:84-94 | the walk down `child` links starts at the given fiber |
| HostPaths.HostEnd | packages/react-reconciler/src/commitWork.ts:111-127 | the fiber the walk ends at, when there is one, is a host fiber |
| HostPaths.HostPathSameTree | packages/react-reconciler/src/completeWork.ts:84-94 | the walk depends on tags and `child` links only |
| HostPaths.HostEndCons | packages/react-reconciler/src/commitWork.ts:111-127 | a walk past a fiber that is no host fiber ends where the rest of it ends |
| HostPaths.HostPathStep | packages/react-reconciler/src/commitWork.ts:111-127 | a host fiber or a leaf ends the walk; any other fiber goes on to its child |
| HostPaths.HostPathShape | packages/react-reconciler/src/commitWork.ts:107-137 | on the walk every fiber but the last is no host fiber and has the next as its child; the last is a host fiber or has no child |
| WorkLoops.BeginsSnoc | packages/react-reconciler/src/workLoop.ts:108-116 | beginning one more fiber extends the trace of begun fibers by it |
| WorkLoops.CompletesSnoc | packages/react-reconciler/src/workLoop.ts:119-131 | completing one more fiber extends the trace of completed fibers by it |
| WorkLoops.PathKept | packages/react-reconciler/src/workLoop.ts:108-117 | a unit of work on the last fiber of the path leaves the path's links intact |
| WorkLoops.PathExtend | packages/react-reconciler/src/workLoop.ts:115 | a child returned by `beginWork` extends the path |
| WorkLoops.PathEnds | packages/react-reconciler/src/workLoop.ts:102-106 | the first fiber of a path lies above its last |
| WorkLoops.UpwardNext | packages/react-reconciler/src/workLoop.ts:122-131 | the climb completes the path from the bottom up, one fiber per turn |
| WorkLoops.ChangesBelowStep | packages/react-reconciler/src/workLoop.ts:102-106 | a run of units of work at a fiber and below it, followed by one more at or below it, changes only that fiber and fibers below it |
| WorkLoops.ChangesBelowNothing | packages/react-reconciler/src/workLoop.ts:102-106 | no step changes nothing outside a subtree |
| WorkLoops.RootOf | packages/react-reconciler/src/workLoop.ts:32-46 | the root found is one of the arena's roots |
| WorkLoops.RootOfClimb | packages/react-reconciler/src/workLoop.ts:32-46 | a fiber and its `return` find the same root, and a host root finds its own `stateNode` |
| WorkLoops.SkippedCommitChangesNothing | packages/react-reconciler/src/workLoop.ts:85-99 | when neither the finished work nor its subtree has a mutation flag, running the mutation effects would change nothing, so skipping them loses nothing |
| WorkLoops.CommitRoot | packages/react-reconciler/src/workLoop.ts:70-100 | nothing without finished work; otherwise `finishedWork` becomes null, the mutation effects run exactly when the finished work or its subtree has a MutationMask flag, and the finished work becomes `current` unless they throw; the scheduling fields of the root are kept |
| WorkLoops.FinishAndCommit | packages/react-reconciler/src/workLoop.ts:64-67 | `root.current.alternate` is committed and becomes `current` unless the commit throws |
| WorkLoops.MarkUpdateFromFiberToRoot | packages/react-reconciler/src/workLoop.ts:32-46 | the loop climbs `return` links to the topmost ancestor and returns its `stateNode` exactly when that ancestor is a host root, and null otherwise |
| WorkLoops.WorkLoop.constructor | packages/react-reconciler/src/workLoop.ts:15 | `workInProgress` starts null |
| WorkLoops.WorkLoop.CompleteAndClimb | packages/react-reconciler/src/workLoop.ts:122-131 | one turn of the do-while: the lowest fiber of the path not yet completed is completed and the climb moves to its `return`, the fiber above it |
| WorkLoops.WorkLoop.CompleteUnitOfWork | packages/react-reconciler/src/workLoop.ts:119-132 | the fiber and then each `return` in turn are completed, up to the fiber without one, in the reverse of the order they were begun; `workInProgress` ends null, or on the fiber a completion threw on |
| WorkLoops.WorkLoop.BeginUnit | packages/react-reconciler/src/workLoop.ts:109-110 | `beginWork(fiber)` then `memoizedProps = pendingProps`; a returned child lies below `fiber`, has it as parent, and for a host component has props that nest less deeply |
| WorkLoops.WorkLoop.PerformUnitOfWork | packages/react-reconciler/src/workLoop.ts:108-117 | with a child, `workInProgress` moves to it and the path grows; without one, the path is completed upwards |
| WorkLoops.WorkLoop.RunWorkLoop | packages/react-reconciler/src/workLoop.ts:102-106 | the loop terminates; with nothing to do it changes nothing; when it ends without a throw, every fiber of the path was begun top-down and then completed bottom-up, and `workInProgress` is null; a throw leaves `workInProgress` set |
| WorkLoops.WorkLoop.PrepareFreshStack | packages/react-reconciler/src/workLoop.ts:17-22 | `workInProgress` becomes `createWorkInProgress(root.current, {})`: the existing alternate or a fresh fiber, linked to `root.current` |
| WorkLoops.WorkLoop.PrepareRootStack | packages/react-reconciler/src/workLoop.ts:17-22 | the work-in-progress of a host root is a host root without a parent that shares the current root's update queue |
| WorkLoops.WorkLoop.RetryWorkLoop | packages/react-reconciler/src/workLoop.ts:52-62 | the retry loop ends, with `workInProgress` null; when the first run does not throw, the trace is that run's |
| WorkLoops.WorkLoop.RenderRoot | packages/react-reconciler/src/workLoop.ts:48-68 | a fresh work-in-progress is rendered from the top, then committed; it becomes `current` unless the commit throws, and `finishedWork` ends null |
| WorkLoops.WorkLoop.ScheduleUpdateOnFiber | packages/react-reconciler/src/workLoop.ts:24-30 | the root found from `fiber` is rendered and committed; without a root the call fails reading `current`, before anything changes |
| FiberHooks.CurrentDispatcher.constructor | packages/react/src/currentDispatch.ts:26-30 | no dispatcher is installed at first |
| FiberHooks.Hook.constructor | packages/react-reconciler/src/fiberHooks.ts:93-97 | a new hook has a null state, no queue and no next hook |
| FiberHooks.InitialState | packages/react-reconciler/src/fiberHooks.ts:62-67 | an initial state that is not a function is stored as it is; a function's result is stored otherwise |
| FiberHooks.HooksState.constructor | packages/react-reconciler/src/fiberHooks.ts:16-20 | no fiber is rendering and no hook is in progress |
| FiberHooks.HooksState.MountWorkInProgressHook | packages/react-reconciler/src/fiberHooks.ts:92-114 | the first hook throws without a rendering fiber and changes nothing; otherwise it becomes the fiber's `memoizedState`; a later hook is linked from the previous one's `next`; either way the new empty hook is returned and becomes `workInProgressHook` |
| FiberHooks.HooksState.MountState | packages/react-reconciler/src/fiberHooks.ts:56-80 | the mounted hook holds the initial state (a function is called for it) and a fresh queue whose `dispatch` is bound to the rendering fiber and to that queue; the state and that dispatch are returned; the error of `mountWorkInProgressHook` is passed on |
| FiberHooks.HooksState.UseState | packages/react/index.ts:10-15 | `resolveDispatcher()` throws when no dispatcher is installed and nothing changes; otherwise the call is `mountState`, with its effects |
| FiberHooks.HooksState.RenderWithHooks | packages/react-reconciler/src/fiberHooks.ts:31-50 | `wip.memoizedState` is cleared and the mount dispatcher installed when `wip` has no alternate; the component's `useState` calls mount one hook each, in call order; the rendering fiber is reset to null when the component returns, but not when a hook throws; only a render that starts with no hook in progress links its first hook from `wip.memoizedState` |
| FiberHooks.HooksState.RenderWithHooksFromStart | packages/react-reconciler/src/fiberHooks.ts:18-50 | with `workInProgressHook` reset before the component runs, the hook list is exactly this render's hooks, and the first of them is linked from `wip.memoizedState` |
| FiberHooks.HooksState.ClearRenderingFiber | packages/react-reconciler/src/fiberHooks.ts:48 | the rendering fiber becomes null |
| FiberHooks.HooksState.CallComponent | packages/react-reconciler/src/fiberHooks.ts:44-46 | the component's `useState` calls run in order while `wip` renders, and its children are returned |
| FiberHooks.HooksState.CallUseState | packages/react/index.ts:10-15 | one more `useState` call mounts one more hook, or throws without a dispatcher |
| FiberHooks.MountedRunStep | packages/react-reconciler/src/fiberHooks.ts:92-114 | one more mounted hook extends the run of hooks by the next call |
| FiberHooks.DispatchSetState | packages/react-reconciler/src/fiberHooks.ts:73-90 | called on the fiber and queue its dispatch value binds, one fresh update with the action and no lane is appended to that queue, then an update is scheduled on that fiber; a null fiber fails reading its `return` |
| FiberHooks.ApartFromRootQueues | packages/react-reconciler/src/fiberHooks.ts:87-89 | the bound queue and the new update are none of the host roots' queues that scheduling can change |
| FiberHooks.DispatchedUpdatesNeverApply | packages/react-reconciler/src/fiberHooks.ts:87 | updates without a lane are never included, so processing them leaves the state as it was whatever the render lane |
| FiberHooks.LanedUpdatesApply | packages/react-reconciler/src/fiberHooks.ts:87 | an update carrying the lane `requestUpdateLane` gives is included by any render whose lanes cover that lane, and a value dispatched last becomes the state |
| FiberContext.ReactContext.constructor | packages/shared/ReactType.ts:26-30 | a context holds its default value as the current value |
| FiberContext.Push | packages/react-reconciler/src/fiberContext.ts:6-19 | the context gets the new value, every other context keeps its value, the previous value is saved, and the stack grows by the saved value below it |
| FiberContext.Pop | packages/react-reconciler/src/fiberContext.ts:21-32 | the context gets the saved value back, every other context keeps its value, and the stack's top becomes the saved value; an empty stack gives `undefined` |
| FiberContext.ProviderStack.constructor | packages/react-reconciler/src/fiberContext.ts:3-4 | the saved value starts `null` and the stack empty |
| FiberContext.ProviderStack.PushProvider | packages/react-reconciler/src/fiberContext.ts:6-19 | the module state and the context change as `Push` says |
| FiberContext.ProviderStack.PopProvider | packages/react-reconciler/src/fiberContext.ts:21-32 | the module state and the context change as `Pop` says, with `undefined` from an empty stack |
| FiberContext.PopAfterPush | packages/react-reconciler/src/fiberContext.ts:6-32 | a pop right after a push on the same context restores the whole state |
| FiberContext.StackSizes | packages/react-reconciler/src/fiberContext.ts:10-31 | a push grows the stack by one and a pop on a non-empty stack shrinks it by one |
| FiberContext.NestedProvidersRestore | packages/react-reconciler/src/fiberContext.ts:6-32 | any forest of properly nested push and pop pairs gives back the state it started from |
| FiberContext.TreeRestores | packages/react-reconciler/src/fiberContext.ts:6-32 | one provider around a properly nested body gives back the state it started from |
| SyntheticEvents.GetEventCallbackNames | packages/react-dom/src/SyntheticEvent.ts:72-78 | a name list exists exactly for `'click'`, and it is `['onClickCapture', 'onClick']` |
| SyntheticEvents.Visited | packages/react-dom/src/SyntheticEvent.ts:89-92 | the nodes visited are a prefix of the ancestor chain that never holds the container, and stop just before it when it is on the chain |
| SyntheticEvents.Reverse | packages/react-dom/src/SyntheticEvent.ts:108-110 | element `i` of the result is element `n - 1 - i` of the input |
| SyntheticEvents.CollectFromNode | packages/react-dom/src/SyntheticEvent.ts:94-118 | for a click, the node's capture callback, if present, goes in front and its bubble callback, if present, at the end; for any other event type nothing changes |
| SyntheticEvents.CollectPaths | packages/react-dom/src/SyntheticEvent.ts:80-124 | for a click, the capture list is the visited nodes' capture callbacks outermost first and the bubble list their bubble callbacks innermost first, at most one of each per node; any other event type collects nothing |
| SyntheticEvents.CallbacksSnoc | packages/react-dom/src/SyntheticEvent.ts:102-115 | visiting one more, outer, node adds its bubble callback at the end and its capture callback in front |
| SyntheticEvents.ReverseAppend | packages/react-dom/src/SyntheticEvent.ts:108-110 | reversing a concatenation reverses the parts and swaps them |
| SyntheticEvents.NativeEvent.constructor | packages/react-dom/src/SyntheticEvent.ts:46-51 | a native event with its target, no synthetic wrapper yet, and no calls made |
| SyntheticEvents.NativeEvent.StopPropagation | packages/react-dom/src/SyntheticEvent.ts:130-136 | on the synthetic event the flag is set; the saved native `stopPropagation`, when there is one, is called without its receiver and throws a TypeError |
| SyntheticEvents.NativeEvent.IntendedStopPropagation | packages/react-dom/src/SyntheticEvent.ts:130-136 | with the native method called on the event, the flag is set as before and nothing is thrown |
| SyntheticEvents.BoundStopOnlyChangesResult | packages/react-dom/src/SyntheticEvent.ts:130-136 | for all inputs, the call as written and the intended call make the same callback calls and leave the same flag; the outcomes differ only where the call as written throws the TypeError on a stopped flow |
| SyntheticEvents.CreateSyntheticEvent | packages/react-dom/src/SyntheticEvent.ts:126-138 | the stop flag starts false and `stopPropagation` is wrapped; no callback is called |
| SyntheticEvents.CallCallback | packages/react-dom/src/SyntheticEvent.ts:146 | a callable callback is called once with the event; the flag and the outcome are those of one run of it |
| SyntheticEvents.TriggerEventFlow | packages/react-dom/src/SyntheticEvent.ts:140-152 | the calls, the stop flag and the outcome are `FlowOf`'s: callbacks run in order until one leaves the flag set, throws, or is not callable, which throws a TypeError before it runs |
| SyntheticEvents.FlowSkipQuiet | packages/react-dom/src/SyntheticEvent.ts:144-151 | callbacks that can run, and neither stop the event nor throw, are called one after another and the flow goes on past them |
| SyntheticEvents.FlowUnfold | packages/react-dom/src/SyntheticEvent.ts:145-150 | one turn of the loop: a value that is not callable ends the flow with a TypeError, a callback that stops or throws ends it, and any other goes on to the next |
| SyntheticEvents.FlowStopsAt | packages/react-dom/src/SyntheticEvent.ts:144-151 | the flow ends right after the first callback that stops the event, with the flag set; the stop throws a TypeError exactly when the event has a native `stopPropagation` |
| SyntheticEvents.FlowRunsAll | packages/react-dom/src/SyntheticEvent.ts:144-151 | when every callback can run and none stops the event or throws, every one runs, the flag stays clear and the flow returns |
| SyntheticEvents.FlowThrowsAt | packages/react-dom/src/SyntheticEvent.ts:146 | the first value that cannot be called ends the flow with a TypeError; the callbacks before it have run, and neither it nor any later one does |
| SyntheticEvents.FlowIsPrefix | packages/react-dom/src/SyntheticEvent.ts:144-151 | for all inputs, the callbacks called are a prefix of the list, all callable, all but the last neither stopping nor throwing; a flow that returns with the flag clear called every callback |
| SyntheticEvents.NonFunctionCallbackThrows | packages/react-dom/src/SyntheticEvent.ts:146 | for the callbacks `[1, f]` the call on `1` throws, so `f` never runs |
| SyntheticEvents.EventSystem.constructor | packages/react-dom/src/SyntheticEvent.ts:41-43 | no listener is registered at first |
| SyntheticEvents.EventSystem.InitEvent | packages/react-dom/src/SyntheticEvent.ts:30-44 | a listener is registered exactly for `'click'`; any other event type registers nothing |
| SyntheticEvents.DispatchEvent | packages/react-dom/src/SyntheticEvent.ts:46-70 | nothing happens without a target; for a click the capture flow runs, then the bubble flow unless the capture flow stopped the event or threw; what a flow throws is what the dispatch throws; other event types call nothing |
| SyntheticEvents.CaptureStopSkipsBubble | packages/react-dom/src/SyntheticEvent.ts:65-69 | a first capture callback that stops the event, on an event without a native `stopPropagation`, is the only callback that runs, and the bubble flow is skipped |
| NoopRoot.SetProperty | packages/react-noop-renderer/src/root.ts:90 | `props.children = children`: an object gets the property with every other property kept; assigning on `null`, `undefined` or another primitive throws |
| NoopRoot.GetChildren | packages/react-noop-renderer/src/root.ts:27-34 | a falsy parent gives `null`; an object parent gives its `children` |
| NoopRoot.GetChildrenAsJsx | packages/react-noop-renderer/src/root.ts:36-50 | throws exactly when converting the children throws; a list result is wrapped in a Fragment element whose `props.children` is the list, any other result is returned unchanged |
| NoopRoot.Container.constructor | packages/react-noop-renderer/src/root.ts:19-22 | a container with its id and no children |
| NoopRoot.NoopRenderer.constructor | packages/react-noop-renderer/src/root.ts:16 | the id counter starts at 0 |
| NoopRoot.NoopRenderer.CreateRoot | packages/react-noop-renderer/src/root.ts:18-22 | each new container gets the counter's value as `rootID` and no children, and the counter grows by one |
| NoopRoot.RootChildrenAsJsx | packages/react-noop-renderer/src/root.ts:114-116 | the root's `getChildrenAsJsx()` is `getChildrenAsJsx` of its container as it is now |
| NoopRoot.TextAndShortLists | packages/react-noop-renderer/src/root.ts:54-68 | strings and numbers convert to themselves, an empty list to `null`, and a one-item list to its item's conversion |
| NoopRoot.MapToJsxPointwise | packages/react-noop-renderer/src/root.ts:69 | `map` converts every item in order and throws exactly when one of the items does |
| NoopRoot.LongList | packages/react-noop-renderer/src/root.ts:69-80 | a list of two or more gives the `join('')` of its converted items when all are strings or numbers, and the list of converted items in order otherwise |
| NoopRoot.InstanceBecomesElement | packages/react-noop-renderer/src/root.ts:84-100 | an instance with a children list becomes an element of the instance's type with null key and ref, whose props get `children` when the converted children are not `null` |
| NoopRoot.OtherValues | packages/react-noop-renderer/src/root.ts:84-103 | any other object converts to its `text` property, and `null` or `undefined` throw |
| NoopRoot.HostTreeConverts | packages/react-noop-renderer/src/root.ts:52-104 | the conversion of a host tree never throws; a text instance becomes its text, and an instance an element of its type whose props are its own with at most `children` replaced |
| NoopRoot.HostListConverts | packages/react-noop-renderer/src/root.ts:62-81 | the conversion of a list of host nodes never throws |
| NoopRoot.EncodeAllAt | packages/react-noop-renderer/src/root.ts:62-81 | item `i` of an encoded list is the encoding of node `i` |
| NoopRoot.TextChildrenFlatten | packages/react-noop-renderer/src/root.ts:69-91 | two or more text instances under one instance flatten into one string holding their texts in order |
| NoopRoot.TextListFlattens | packages/react-noop-renderer/src/root.ts:69-79 | a list of two or more text instances converts to the concatenation of their texts |
| NoopRoot.JoinStrings | packages/react-noop-renderer/src/root.ts:78 | `join('')` of strings is their concatenation |
| NoopRoot.FragmentWrapping | packages/react-noop-renderer/src/root.ts:40-49 | `getChildrenAsJsx` wraps a list in a Fragment element and passes every other result through |

## Behaviour as written

The model follows the code where it departs from what React does. Each
departure is shown by a member that models the code as written. Beside it
stands the behaviour React evidently intends, with its property proved.

| source | as written | shown by | intended | proved by |
|---|---|---|---|---|
| packages/react-reconciler/src/updateQueue.ts:121 | An included function update is applied to the input `baseState`, not to the running state. So two `n => n + 1` updates on 0 give 1, and only the last included update counts. | `UpdateQueues.FunctionActionsSeeBaseState` and `UpdateQueues.LastIncludedWins` | Each included update acts on the running state, `UpdateQueues.IntendedState`. | `UpdateQueues.FunctionActionsSeeBaseState` gives 2 for it; `UpdateQueues.ValueActionsAgree` shows the two agree exactly when every included update carries a value |
| packages/react-reconciler/src/beginWork.ts:42-45 | `updateHostRoot` passes no render lane. The `&` in `isSubsetOfLanes` then gives 0, so only updates of lane 0 are applied. A SyncLane update of the root state is ignored. | `BeginWorks.RootUpdatesNeedLaneZero` and `UpdateQueues.MissingRenderLane` | The render lane is passed on. | `BeginWorks.RootUpdatesWithSyncLane`: a SyncLane render includes every SyncLane update |
| packages/react-reconciler/src/fiberHooks.ts:87 | `dispatchSetState` builds its update without a lane. An update without a lane is never included, whatever the render lane. | `FiberHooks.DispatchedUpdatesNeverApply` and `FiberHooks.DispatchSetState` | The update carries the lane of `requestUpdateLane()`. | `FiberHooks.LanedUpdatesApply`: a render whose lanes cover that lane includes it |
| packages/react-reconciler/src/fiberHooks.ts:18 | `workInProgressHook` is never reset. Only the first render links its first hook from the fiber's `memoizedState`. Later renders chain their hooks onto the previous render's last hook, and leave `memoizedState` null. | `FiberHooks.HooksState.RenderWithHooks` | `workInProgressHook` is reset to null before the component runs. | `FiberHooks.HooksState.RenderWithHooksFromStart`: every render links its first hook from `memoizedState` and holds only its own hooks |
| packages/react-reconciler/src/fiber.ts:52 | `key \|\| null` turns every falsy key into `null`, including `""` and `0`. An element with key `""` then never matches its old fiber. | `Fibers.NormalizeKey` and `Fibers.NewFiberDefaults` | The fiber keeps the element's key, `Fibers.IntendedKey`. | `Fibers.EmptyKeyKeptAsIntended`: `""` and every other string key are kept |
| packages/react-reconciler/src/commitWork.ts:115-118 | `appendChildToContainer` is declared as (container, child) at packages/react-dom/src/hostConfig.ts:27-41, but it is called with the child's instance first and the host parent second. | `CommitWorks.RootPlacementSwapsArguments` | The host parent is passed first, `CommitWorks.IntendedPlacementOps`. | `CommitWorks.RootPlacementContainerFirst`: the instance is appended to the root's container, and the call as written is that call swapped |
| packages/react-dom/src/SyntheticEvent.ts:130-136 | The saved native `stopPropagation` is called without a receiver. On a DOM event this throws a TypeError ("Illegal invocation") each time a callback calls `stopPropagation`. | `SyntheticEvents.NativeEvent.StopPropagation` and `SyntheticEvents.FlowStopsAt` | The native method is called on the event, `originStopPropagation.call(e)`, `SyntheticEvents.NativeEvent.IntendedStopPropagation`. | `SyntheticEvents.BoundStopOnlyChangesResult`: the same calls and flag, without the TypeError |
| packages/react-reconciler/src/childFiber.ts:84-92 | The `break` for a key match on a value that is not a React element sits inside `if (__DEV__)`. Without `__DEV__` the loop would revisit the same fiber forever. With `__DEV__`, which the model assumes, the loop stops and deletes nothing. The branch cannot be reached through `reconcileChildFibers`, which calls `reconcileSingleElement` only for a child whose `$$typeof` is the element marker (childFiber.ts:159-160); only a direct caller passing some other value would reach it. | `ChildFibers.ElementPlan`, `ChildFibers.ElementPlanFirstMatch` and `ChildFibers.ElementMismatch` | The loop stops in every build, which is what the `__DEV__` build does. | `ChildFibers.ElementMismatch`: a key match on a non-element ends the loop and deletes nothing |

## Left out

- `console.warn` and `console.log` calls. They have no effect on the model.
- The build without `__DEV__`. The model takes `__DEV__` to be true.
- `fiberReconciler.ts` (`createContainer`, `updateContainer`). It is not
  part of this model. So the `render` entry points of both `root.ts` files
  are left out, beyond the `rootID` counter and the conversion to JSX.
- The scheduler. The current scheduler priority and whether a transition
  is running are parameters of `Lanes.RequestUpdateLane`.
- The real DOM. Host operations are entries in a log. The DOM tree the
  events walk is an arena of nodes with `parentNode` and the props stored
  under `__props`. `updateFiberProps` is the props field of that arena.
- Native event listeners. A registered listener is an entry in
  `SyntheticEvents.EventSystem`; the browser calling it is not modelled.
- Callbacks. What an event callback does is the parameter `fx`: whether it
  calls `stopPropagation`, and whether it throws on its own account. A
  callback is taken not to catch the TypeError that `stopPropagation`
  throws when the event has a native `stopPropagation`. Callable values are
  functions and objects whose own `call` property holds a function.
- Function components. A component body is abstract (`ComponentBody`): the
  initial states of its `useState` calls in order, how to call a function
  initial state, and the children it returns.
- Dispatcher methods other than `useState` (`useEffect`, `useTransition`,
  `useRef`, `useContext`). The mount dispatcher here does not define them.
  The update dispatcher does not exist in this snapshot.
- Floating-point numbers. Numbers are integers. For strings and numbers,
  `String(v)` is their decimal notation.
- A function's source text. It is not modelled when a function is
  converted to a string.
- Object identity. Objects are compared by contents. `===` on two distinct
  objects with equal fields is therefore true in the model.
- NoopRoot.InstanceBecomesElement: `childToJsx` writes `props.children` into
  the instance's own props object at packages/react-noop-renderer/src/root.ts:90.
  The model returns the new props and does not show the write through that
  alias.
- ChildFibers.ReconciledFiber: for a reused fiber that already had a
  work-in-progress, it states only the `return` link and the cleared flags,
  not the alternate link.
- FiberHooks.DispatchSetState: requires the fiber and queue it is called
  with to be the ones its `dispatch` value binds, as `mountState` binds
  them. It also requires the hook's queue to be kept apart from the host
  roots' update queues (`QueueApart`). In the source they are separate
  objects. These preconditions rule out calls and aliasing that the source
  never makes.
- WorkLoops.WorkLoop.RenderRoot: requires `root.current` to be a host root.
  This is how the source builds every root.
- WorkLoops.WorkLoop.RunWorkLoop: the fibers' tags are not shown to be kept
  across the loop. Its `Grew` postcondition keeps only the arena, the ranks
  and the roots.

# my-react fiber engine, modelled in Dafny

This project models the core of `my-react`, a small React clone. It has five parts:

- Element construction: `createElement` and `createTextElement`.
- The property diff `updateDom`.
- The fiber reconciler: `performUnitOfWork`, `updateFunctionComponent`,
  `updateHostComponent`, `reconcileChildren` and `createDom`.
- The state hook `useState` and its `setState` closure.
- The scheduler and commit phase: `render`, `workLoop`, `commitRoot`,
  `commitWork` and `commitDeletion`, with the global `globals` record.

Modules:

- `Elements` (element.dfy): virtual elements as values. `createElement` is a
  pure function, and its contract states the result field by field.
- `DomProps` (dom_props.dfy): a host node seen as an attribute map and a set
  of listeners. `updateDom` is four loops, each proved against a set-builder
  definition of what it changes. `Updated` is the node after all four passes.
- `FiberTree` (fiber_tree.dfy): fibers are held in an arena `seq<Fiber>` and
  named by index. `WellLinked` is the link invariant: a parent is older than
  its children, a child points back at its parent, a root owns a host node,
  and so on. The module also holds the two read-only walks:
  - the next unit of work, `Successor`, proved to enumerate the pre-order
    `Order`;
  - the nearest ancestor with a host node, `DomParent`.
- `ReconcileSpec` (reconcile_spec.dfy): `Reconciled` and `Unmatched` give the
  arena and the deletion list after `reconcileChildren`, as functions of the
  arena before. Lemmas state the shape:
  - one new fiber per element, chained in order;
  - UPDATE and PLACEMENT fibers by position and type;
  - exactly the unmatched old children queued, in old-chain order.
- `HookSpec` (hook_spec.dfy): hooks, queued actions and the fold that
  `useState` performs.
- `CommitPlan` (commit_plan.dfy): commit as the sequence of host operations
  it issues (`HostOp`). Each result is an `Outcome` that also records
  whether commit stopped on the TypeError `commitDeletion` raises.
- `Engine` (engine.dfy): class `Globals` is the mutable `globals` record, and
  every operation that changes it is a method. The arena is the field
  `fibers`. Hooks live in their own store, `hookStore`, because a `setState`
  closure keeps a reference to one particular hook. The host is the
  operation log `log`, and new host nodes are numbered from `nextNode`.

`src/myReact.ts` repeats the split files' functions in one file, with the
same behaviour, so the same members model both:

| myReact.ts lines | function |
|---|---|
| 20-34 | `createElement` |
| 36-44 | `createDom` |
| 46-53 | `commitRoot` |
| 55-77 | `commitWork` |
| 79-85 | `commitDeletion` |
| 87-97 | `render` |
| 99-114 | `workLoop` |
| 118-138 | `performUnitOfWork` |
| 140-146 | `updateFunctionComponent` |
| 148-154 | `updateHostComponent` |
| 156-185 | `useState` |
| 187-236 | `reconcileChildren` |

The table below cites the split files.

`commitRoot` never clears the deletion list (src/myReact/scheduler.ts:23-30),
and neither does `Engine.Globals.CommitRoot`. The list is emptied only by
`render` and `setState`.

## Model

| member | source | states |
|---|---|---|
| Elements.CreateTextElement | src/myReact/element.ts:19-27 | A text element has the reserved `TEXT_ELEMENT` type, `nodeValue` set to the text, and no children. |
| Elements.MapChildren | src/myReact/element.ts:12-14 | There is one element per child argument, in order. Each is the child itself for an element, or a text element for a string or other non-null primitive. |
| Elements.CreateElement | src/myReact/element.ts:3-17 | The type is the given one. Every prop key except `children` is copied. `children` is exactly the converted child arguments: elements unchanged, non-null primitives as leaf `TEXT_ELEMENT`s holding the value. |
| Elements.IncomingChildrenIgnored | src/myReact/element.ts:10-14 | An incoming `children` prop never changes the result, because the child arguments overwrite it. |
| DomProps.ToLower | src/myReact/utils.ts:5 | Lower-casing keeps the length, moves each ASCII upper-case letter 32 code points up, keeps every other character, and leaves no upper-case letter. |
| DomProps.ToLowerIdempotent | src/myReact/utils.ts:5 | Lower-casing twice is lower-casing once. |
| DomProps.GetEventType | src/myReact/utils.ts:5 | The event type is the lower-cased name minus its first two characters. |
| DomProps.DetachListeners | src/myReact/utils.ts:18-28 | Pass 1 removes exactly the listeners of the prev event keys that are changed or gone from next. |
| DomProps.ClearAttributes | src/myReact/utils.ts:30-37 | Pass 2 sets to `''` exactly the prev attribute keys that are gone from next. |
| DomProps.AssignAttributes | src/myReact/utils.ts:39-46 | Pass 3 sets exactly the next attribute keys whose value differs from prev to their next value. |
| DomProps.AttachListeners | src/myReact/utils.ts:48-55 | Pass 4 adds exactly the entries (event type, next value) of the next event keys whose value differs from prev. An entry whose value is null or undefined is kept; see Left out. |
| DomProps.UpdateDom | src/myReact/utils.ts:17-56 | The four passes run in source order, so the node ends as `Updated`: removals come before additions, and cleared and assigned attributes are merged into the old ones. |
| DomProps.KeyKindsPartition | src/myReact/utils.ts:3-15 | Attribute passes never touch `children` or an `on…` key, listener passes touch only `on…` keys, and no key is both cleared and assigned. |
| DomProps.UnchangedKeyUntouched | src/myReact/utils.ts:9-15 | A key with the same value in prev and next is in none of the four passes, and its attribute slot keeps its value. |
| DomProps.UpdateDomSamePropsIsNoOp | src/myReact/utils.ts:17-56 | `updateDom(node, p, p)` leaves the node unchanged. |
| DomProps.ClassNameAndClickExample | src/myReact/utils.ts:17-56 | Going from `{className: 'a', onClick: f}` to `{className: 'b'}` removes the `click` listener `f` and sets `className` to `'b'`, and changes nothing else. |
| FiberTree.SuccessorFollowsOrder | src/myReact/reconciler.ts:18-29 | The next-unit function enumerates the pre-order of a subtree and its later siblings, one fiber after the other. After the last one, the walk resumes at the nearest ancestor's sibling. |
| FiberTree.RootWalkEnds | src/myReact/reconciler.ts:18-29 | From a root, the units of work are exactly the tree in pre-order, and then there is no next unit. |
| FiberTree.FindNextUnit | src/myReact/reconciler.ts:17-29 | The loop returns the child when there is one. Otherwise it returns the sibling of the fiber or of its nearest ancestor that has one, and none once the root is passed. |
| FiberTree.ChainShape | src/myReact/reconciler.ts:50 | A child chain is in increasing id order, each member's sibling is the next member, and all members share one parent. |
| FiberTree.DomParent | src/myReact/scheduler.ts:38-42 | The host parent is a proper ancestor and owns a host node. |
| FiberTree.DomParentIsNearest | src/myReact/scheduler.ts:38-42 | The host parent is the first ancestor, going up, that owns a host node. Every nearer ancestor has none. |
| FiberTree.FindDomParent | src/myReact/scheduler.ts:37-42 | The climb from the parent stops at `DomParent`. It terminates because every root owns a host node. |
| FiberTree.AppendRootWellLinked | src/myReact/globals.ts:23-30 | A root as `render` or `setState` builds it keeps the arena well linked: no parent, a container node, and an older or absent alternate. |
| ReconcileSpec.UnmatchedExact | src/myReact/reconciler.ts:79-82 | An id is queued for deletion iff it is an old child whose position has no element of the same type. The queue is in old-chain order. |
| ReconcileSpec.ReconciledWellLinked | src/myReact/reconciler.ts:48-95 | After reconciliation the arena is still well linked and has grown by one fiber per element. |
| ReconcileSpec.ReconciledChildren | src/myReact/reconciler.ts:53-93 | When the loop runs, wip's child chain is exactly the new fibers, one per element in element order, so an empty list leaves no child. Each new fiber has wip as parent and the element's type and props. |
| ReconcileSpec.ReconciledEffects | src/myReact/reconciler.ts:57-82 | A same-type position gives an UPDATE fiber that reuses the old node and has the old fiber as alternate, and the old fiber is not queued. Any other element gives a PLACEMENT fiber with no node and no alternate, and the old fiber at that position is queued. |
| ReconcileSpec.PrefixMatchQueuesTail | src/myReact/reconciler.ts:53-85 | When every shared position keeps its type, only the old children past the new length are queued. None are queued when the list grows. |
| ReconcileSpec.PrefixMatchUpdatesShared | src/myReact/reconciler.ts:57-78 | When every shared position keeps its type, shared positions become UPDATE fibers and the rest become PLACEMENT fibers. |
| ReconcileSpec.ReconciledKeeps | src/myReact/reconciler.ts:48-95 | Old fibers keep their parent, sibling, alternate, type, props, node and hooks, and all but wip keep their child. An old fiber's effect tag becomes DELETION iff it is queued, and is otherwise kept. New fibers start with no hooks. |
| HookSpec.FoldConcat | src/myReact/hooks.ts:16-19 | Applying two batches of actions is applying the first, then the second. |
| HookSpec.QueuedActionsApplyInOrder | src/myReact/hooks.ts:16-22 | Actions queued by later `setState` calls are applied after the hook's state, in enqueue order. |
| HookSpec.StateSurvivesRerender | src/myReact/hooks.ts:11-14 | With an empty queue, the old state comes back, unless it is null or undefined. In that case the initial value is used (`??`). |
| HookSpec.FirstRenderUsesInitial | src/myReact/hooks.ts:11-16 | Without an old hook, the state is the initial value. |
| HookSpec.CounterExample | src/myReact/hooks.ts:11-19 | State 0 with one queued increment renders as 1. |
| HookSpec.NewHooksKeepLinks | src/myReact/hooks.ts:32 | Giving the wip fiber a new hook list keeps every link. Its alternate's hooks, and so the old hooks, stay the same. |
| CommitPlan.DeletionTargetIsFirstOnSpine | src/myReact/scheduler.ts:56-62 | `commitDeletion` removes the node of the first fiber down the child chain that has one. It fails when that chain ends without a node. |
| CommitPlan.WorkOpsFollowsOrder | src/myReact/scheduler.ts:32-54 | `commitWork(f)` issues the own operations of the fibers of `Order(f)`, the pre-order of f's subtree and of its later siblings, one fiber after the other, and stops at the first failing fiber. |
| CommitPlan.InOrderConcat | src/myReact/scheduler.ts:52-53 | Committing two fiber sequences one after the other is committing their concatenation. |
| CommitPlan.InOrderCompletes | src/myReact/scheduler.ts:32-54 | A commit walk completes iff every visited fiber's own step completes. |
| CommitPlan.InOrderStopsAtFirstFailure | src/myReact/scheduler.ts:44-62 | When the first failing fiber is at position k, the walk issues the operations of the fibers before k, then k's own, and stops without completing. |
| CommitPlan.AdjacentDeletionsRemoveTwice | src/myReact/scheduler.ts:24-58 | As written, two adjacent deleted leaves queued together issue three removals, and the second node is removed twice. |
| CommitPlan.LeafDeletionWork | src/myReact/scheduler.ts:44-58 | `commitWork` on a deleted leaf with a node removes that node and then walks on into the sibling. |
| CommitPlan.FixedDeletionsRemoveEachOnce | src/myReact/scheduler.ts:56-62 | The corrected deletion pass removes each queued fiber's node exactly once, in list order, under its host parent. |
| CommitPlan.FixedDeletionsStopAtFirstFailure | src/myReact/scheduler.ts:56-62 | A pass whose first fiber without any node is at position i issues the removals before i and stops. |
| CommitPlan.FixedDeletionsFailureSticks | src/myReact/scheduler.ts:24 | Once the pass has thrown, the later entries issue nothing. |
| CommitPlan.CommitRemovesFirst | src/myReact/scheduler.ts:23-25 | Every removal of a commit comes before any operation of the new tree's walk. |
| Engine.Globals.constructor | src/myReact/globals.ts:13-21 | The engine starts idle: no next unit, no current or wip root, no deletions, no wip fiber or hook index. |
| Engine.Globals.Render | src/myReact/globals.ts:23-33 | A new root is appended. It owns the container, has `[element]` as its children and the current root as alternate. It becomes the wip root and the next unit, deletions are emptied, and the current root is kept. |
| Engine.Globals.UseState | src/myReact/hooks.ts:4-35 | The state is the fold of the old hook's queue, where the old hook is the alternate's hook at `hookIndex`. A new hook with an empty queue is appended to the store and to the wip fiber's hooks. `hookIndex` goes up by one, and no old hook changes. |
| Engine.Globals.SetState | src/myReact/hooks.ts:21-30 | The action is appended to that very hook's queue. A fresh root copying the current root's node and props, with the current root as alternate, becomes the wip root and the next unit. Deletions are emptied. |
| Engine.ApplyQueue | src/myReact/hooks.ts:12-19 | The `forEach` over the old queue yields `NextState`: the actions in order, over the old state or over `initial`. |
| Engine.Globals.CreateDom | src/myReact/reconciler.ts:97-105 | A fresh node, text or element by tag, is created. Then it is updated from `{}` to the fiber's props. |
| Engine.Globals.ReconcileChildren | src/myReact/reconciler.ts:48-95 | The arena becomes `Reconciled`, and the unmatched old children are appended to the end of `deletions`. Earlier entries stay as they were. |
| Engine.ReconcileArena | src/myReact/reconciler.ts:48-95 | The loop over elements and old children produces exactly `Reconciled` and `Unmatched`. It runs max(#elements, #old children) times. |
| Engine.ReconcileRound | src/myReact/reconciler.ts:54-93 | One loop pass advances every loop variable from round i to round i + 1 of the specification. |
| Engine.RoundMade | src/myReact/reconciler.ts:55-78 | The new fiber of a round is UPDATE or PLACEMENT as the types say, and it is linked as the previous new fiber's sibling. |
| Engine.RoundOlds | src/myReact/reconciler.ts:79-88 | An unmatched old fiber is tagged DELETION and queued. The walk moves to its sibling, and round 0 sets wip's child. |
| Engine.Globals.UpdateFunctionComponent | src/myReact/reconciler.ts:32-38 | f becomes the wip fiber and its hook list is rebuilt from index 0, one new hook per `useState` call. Then exactly one element, the component's result, is reconciled. |
| Engine.Globals.CallHooks | src/myReact/reconciler.ts:33-36 | The useState calls of one render start from `hookIndex` 0 and no hooks. They leave the states `RenderStates` in fresh hooks numbered in call order. |
| Engine.Globals.UpdateHostComponent | src/myReact/reconciler.ts:40-46 | A node is created only when the fiber has none, and an existing node is kept. The props' children are reconciled. |
| Engine.NewDomKeepsLinks | src/myReact/reconciler.ts:41-42 | Giving a fiber without a node a new node keeps every link and hook. |
| Engine.UnitStep | src/myReact/reconciler.ts:10-30 | One unit of work as a function of the render state (arena, hooks, deletion list, log, node counter, next unit). With no unit left it changes nothing. Otherwise the state only grows: arena and hook store, the deletion list at its end, and render operations on new nodes in the log. |
| Engine.ComponentStep | src/myReact/reconciler.ts:32-38 | A component unit adds fibers and hooks, only appends to the deletion list, and leaves the host log and node counter alone. |
| Engine.HostStep | src/myReact/reconciler.ts:40-46 | A host unit keeps the hook store and only appends to the deletion list. The log gains only render operations on nodes it creates, and the node counter never goes back. |
| Engine.TraceIsSteps | src/myReact/scheduler.ts:8-11 | A sequence of states, each one unit after the one before it, ends `n` units after its first state. |
| Engine.UnitStepsStop | src/myReact/scheduler.ts:8 | Once no unit is left, any number of further steps leaves the render state as it is. |
| Engine.Globals.PerformUnitOfWork | src/myReact/reconciler.ts:10-30 | The fiber is rendered by its kind, and the next unit is `Successor`: the child, else the nearest sibling up the parent chain. A component unit rebuilds the fiber's hooks from `RenderStates`, leaves `wipFiber` on it and `hookIndex` at its number of useState calls, and queues `FunctionUnmatched`. A host unit keeps the hooks and queues `HostUnmatched`. Rendering only creates and fills new nodes. The new render state is `UnitStep` of the old one. |
| Engine.Globals.Advance | src/myReact/scheduler.ts:9 | One pass of the loop body takes the render state one `UnitStep` on and keeps the engine invariant. |
| Engine.Globals.StepUntilYield | src/myReact/scheduler.ts:7-11 | The loop records its states: the trace starts at the state it found, ends at the one it leaves, and each state is one `UnitStep` after the one before it. The state only grows. It stops with work left only when the last deadline check said to yield, and every earlier check said to go on. |
| Engine.Globals.PerformUntilYield | src/myReact/scheduler.ts:7-11 | At least one unit runs iff work exists. Every deadline check but the last said to go on, and the loop ends with work left only when the last check said to yield. The render state it leaves is `UnitSteps` of the one it found, `units` steps on. The arena and hook store only grow, the deletion list only gains entries at its end, and the host only sees new nodes being created and filled. |
| Engine.Globals.WorkLoop | src/myReact/scheduler.ts:6-21 | After the render part, commit happens iff no unit is left and there is a wip root. The host log is then the rendered log followed by `CommitOps` over the final arena and the whole deletion list, so every fiber queued during rendering is committed. Without commit, or when commit throws, both roots are as they were. On success the wip root becomes the current root. The next callback is registered unless commit threw. The render part stops at the first yield, and the state it leaves, with the log as `rendered`, is `units` steps of `UnitStep` from the state the call found. |
| Engine.Globals.CommitRoot | src/myReact/scheduler.ts:23-30 | The deletions are committed first, then the new tree from the root's child. On success the wip root becomes the current root and the wip root is cleared. |
| Engine.Globals.CommitDeletions | src/myReact/scheduler.ts:24 | The corrected deletion pass over the list, stopping at the first failure. |
| Engine.Globals.CommitWork | src/myReact/scheduler.ts:32-54 | The recursive walk issues exactly `WorkOps`, which is the own operations of the fibers in pre-order, up to the first failure. |
| Engine.Globals.CommitEffect | src/myReact/scheduler.ts:37-50 | The host parent is found. PLACEMENT appends the node, UPDATE updates it from the alternate's props, and DELETION runs `commitDeletion`. |
| Engine.Globals.CommitDeletion | src/myReact/scheduler.ts:56-62 | Removes the fiber's node or, failing that, the first node down the child chain. A missing child is the TypeError. |

## Left out

- Browser scheduling. `requestIdleCallback` and `IdleDeadline` become the
  `timeUp` sequence given to each `WorkLoop` call. Entry k is
  `timeRemaining() < 1` after the k-th unit, and past its end the time is up.
  Re-registration is the flag `scheduled`.
- The real DOM. Host calls become entries of the operation log. What an
  update does to a node is `DomProps.Updated`, applied to a node state
  apart from the log. The DOMException a real `removeChild` throws for a
  node that is no longer a child is not modelled: the second removal in the
  finding below is logged like any other.
- `.flat()` on children arrays: `Props.children` is already a flat sequence.
- `toLowerCase` beyond ASCII letters, and numbers other than integers.
- Running user code. A function component is a value of `components`: the
  initial values of its `useState` calls, which depend on props only, and the
  one element it returns given props and states. Actions are opaque
  functions. Components that call `useState` a varying number of times,
  depending on state, are not modelled.
- Engine.Globals.UseState: modelled only while a component renders (wip fiber
  and hook index set). Called elsewhere, the source pushes to no fiber.
- Engine.Globals.SetState: requires a committed root. Before the first
  commit, the source builds a root without props, on which the next unit of
  work throws.
- Elements.CreateElement: a `null` child argument is not modelled. `typeof null`
  is 'object', so the source keeps it in `children` as it is, and
  `reconcileChildren` then makes no fiber for it, or throws when a later child
  needs its sibling link. The declared child type is `string | MyReactElement`.
- Elements.MapChildren: the same; `null` child arguments are not modelled.
- DomProps.AttachListeners: an entry whose handler is `null` or `undefined`
  stands for an `addEventListener` call the DOM ignores, so the node state can
  list a handler the browser never attached. `DetachListeners` likewise drops
  such an entry for a `removeEventListener` call that does nothing.
- Engine.Globals.CommitDeletions: runs one `commitDeletion` per queued fiber
  (the corrected pass, see Findings) instead of `deletions.forEach(commitWork)`,
  which also walks each queued fiber's children and later siblings.
- Engine.Globals.CommitRoot: uses the corrected deletion pass (see Findings),
  not `deletions.forEach(commitWork)` as written. The as-written pass is
  `CommitPlan.DeletionsOps`.
- Aliasing of fiber objects: fibers are arena entries updated by index, and
  the commit methods take the arena as a parameter, because commit never
  changes it.
- `src/myReact/index.ts` (module wiring), `src/myReact/types.ts` (types
  only) and `src/App.tsx` (a sample app) are not part of this model.

## Findings

| source | as written | input that shows it | evidently intended | confidence | as-written member | corrected member |
|---|---|---|---|---|---|---|
| src/myReact/scheduler.ts:24 | `deletions.forEach(commitWork)` runs the whole `commitWork` walk on each deleted fiber, including its `sibling` | A list of two items re-rendered as an empty list: both old items are queued, and `commitWork` on the first also walks into the second, so the second node is removed twice (the real DOM would throw on the second removal) | Each queued fiber's node is removed once | not executed | CommitPlan.AdjacentDeletionsRemoveTwice | CommitPlan.FixedDeletionsRemoveEachOnce |

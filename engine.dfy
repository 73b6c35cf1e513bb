/**
 * The engine: the mutable `globals` record of src/myReact/globals.ts and
 * every operation that changes it — render, the work loop and its units of
 * work (src/myReact/scheduler.ts, src/myReact/reconciler.ts), the state hook
 * and its setState closure (src/myReact/hooks.ts), and the commit phase.
 *
 * The browser is replaced by three things: the host is an operation log
 * whose node ids are handed out from `nextNode`; `deadline.timeRemaining() < 1`
 * is read from a sequence of booleans given to each work-loop slice; and a
 * function component is a value of `components`.
 */
module Engine {
  import opened Optional
  import opened Elements
  import opened DomProps
  import opened FiberTree
  import opened ReconcileSpec
  import opened HookSpec
  import opened CommitPlan

  /**
   * A function component: the initial values it passes to useState, in call
   * order, and the one element it returns given its props and the states
   * those calls returned.
   */
  datatype FunctionComponent = FunctionComponent(initials: Props -> seq<Value>, body: (Props, seq<Value>) -> Element)

  /** The host node kind createDom makes for a host tag. */
  function KindOf(tag: string): NodeKind
  {
    if tag == TextTag then TextNode else ElementNode(tag)
  }

  class Globals {
    /** The function components, by identity. */
    const components: nat -> FunctionComponent

    /** Every fiber ever made; parent, child, sibling and alternate are indices into it. */
    var fibers: seq<Fiber>
    /** Every hook ever made; fibers hold indices into it. */
    var hookStore: seq<Hook>

    var nextUnitOfWork: Option<FiberId>
    var currentRoot: Option<FiberId>
    var wipRoot: Option<FiberId>
    var deletions: seq<FiberId>
    var wipFiber: Option<FiberId>
    var hookIndex: Option<nat>

    /** The host operations issued so far, oldest first. */
    var log: seq<HostOp>
    /** The id the next created host node gets. */
    var nextNode: NodeId
    /** A work-loop callback is registered with the browser. */
    var scheduled: bool

    ghost predicate Valid()
      reads this
    {
      && WellLinked(fibers)
      && HooksIn(fibers, hookStore)
      && (nextUnitOfWork.Some? ==> nextUnitOfWork.value < |fibers|)
      && IsRoot(fibers, currentRoot)
      && IsRoot(fibers, wipRoot)
      && Committable(fibers, deletions)
      && (wipFiber.Some? ==> wipFiber.value < |fibers|)
    }

    /** The part of the globals the render phase works on. */
    ghost function Snapshot(): Progress
      reads this
    {
      Progress(fibers, hookStore, deletions, log, nextNode, nextUnitOfWork)
    }

    /** The initial `globals` record, with the first work-loop callback registered. */
    constructor (components: nat -> FunctionComponent, firstNode: NodeId)
      ensures Valid()
      ensures this.components == components
      ensures fibers == [] && hookStore == []
      ensures nextUnitOfWork.None? && currentRoot.None? && wipRoot.None? && deletions == []
      ensures wipFiber.None? && hookIndex.None?
      ensures log == [] && nextNode == firstNode && scheduled
    {
      this.components := components;
      fibers := [];
      hookStore := [];
      nextUnitOfWork := None;
      currentRoot := None;
      wipRoot := None;
      deletions := [];
      wipFiber := None;
      hookIndex := None;
      log := [];
      nextNode := firstNode;
      scheduled := true;
    }

    /**
     * render(element, container): a new work-in-progress root owning the
     * container, with the element as its only child and the committed root
     * as its alternate; the next unit of work is that root.
     */
    method Render(element: Element, container: NodeId)
      requires Valid()
      modifies this`fibers, this`wipRoot, this`deletions, this`nextUnitOfWork
      ensures Valid()
      ensures fibers == old(fibers) + [Fiber(None, Props(map[], [element]), Some(container), None, None, None, currentRoot, None, [])]
      ensures wipRoot == Some(|old(fibers)|) && nextUnitOfWork == wipRoot && deletions == []
    {
      var root := Fiber(None, Props(map[], [element]), Some(container), None, None, None, currentRoot, None, []);
      AppendRootWellLinked(fibers, root);
      fibers := fibers + [root];
      wipRoot := Some(|fibers| - 1);
      deletions := [];
      nextUnitOfWork := wipRoot;
    }

    /**
     * The setState closure of hook `hook`: the action is queued on that very
     * hook, and a new render starts from a copy of the committed root,
     * discarding unfinished work and pending deletions.
     */
    method SetState(hook: HookId, action: Action)
      requires Valid() && hook < |hookStore| && currentRoot.Some?
      modifies this`hookStore, this`fibers, this`wipRoot, this`nextUnitOfWork, this`deletions
      ensures Valid()
      ensures hookStore == old(hookStore)[hook := old(hookStore)[hook].(queue := old(hookStore)[hook].queue + [action])]
      ensures var cr := old(fibers)[currentRoot.value];
              fibers == old(fibers) + [Fiber(None, cr.props, cr.dom, None, None, None, currentRoot, None, [])]
      ensures wipRoot == Some(|old(fibers)|) && nextUnitOfWork == wipRoot && deletions == []
    {
      hookStore := hookStore[hook := hookStore[hook].(queue := hookStore[hook].queue + [action])];
      var cr := fibers[currentRoot.value];
      assert LinkOk(fibers, currentRoot.value);
      var root := Fiber(None, cr.props, cr.dom, None, None, None, currentRoot, None, []);
      AppendRootWellLinked(fibers, root);
      fibers := fibers + [root];
      wipRoot := Some(|fibers| - 1);
      nextUnitOfWork := wipRoot;
      deletions := [];
    }

    /**
     * useState(initial) inside the component fiber being rendered: the old
     * hook at the same position is looked up on the alternate, its queue is
     * folded over its state (or over `initial`), and a new hook holding the
     * result, with an empty queue, is appended to the fiber's hooks.
     */
    method UseState(initial: Value) returns (state: Value, hook: HookId)
      requires Valid() && wipFiber.Some? && hookIndex.Some?
      modifies this`hookStore, this`fibers, this`hookIndex
      ensures Valid()
      ensures state == NextState(OldHook(old(fibers), old(hookStore), wipFiber.value, old(hookIndex).value), initial)
      ensures hook == |old(hookStore)| && hookStore == old(hookStore) + [Hook(state, [])]
      ensures var w := wipFiber.value;
              fibers == old(fibers)[w := old(fibers)[w].(hooks := old(fibers)[w].hooks + [hook])]
      ensures hookIndex == Some(old(hookIndex).value + 1)
    {
      var w := wipFiber.value;
      var idx := hookIndex.value;
      assert LinkOk(fibers, w);
      var oldHook: Option<Hook> := None;
      var alt := fibers[w].alternate;
      if alt.Some? && idx < |fibers[alt.value].hooks| {
        oldHook := Some(hookStore[fibers[alt.value].hooks[idx]]);
      }
      assert oldHook == OldHook(fibers, hookStore, w, idx);
      state := ApplyQueue(oldHook, initial);
      NewHooksKeepLinks(fibers, hookStore, w, fibers[w].hooks + [|hookStore|], [Hook(state, [])]);
      hookStore := hookStore + [Hook(state, [])];
      hook := |hookStore| - 1;
      fibers := fibers[w := fibers[w].(hooks := fibers[w].hooks + [hook])];
      hookIndex := Some(idx + 1);
    }

    /**
     * createDom(fiber): a fresh text or element node, then updateDom from
     * empty props to the fiber's props.
     */
    method CreateDom(f: FiberId) returns (node: NodeId)
      requires f < |fibers| && fibers[f].ftype.Some? && fibers[f].ftype.value.Host?
      modifies this`log, this`nextNode
      ensures node == old(nextNode) && nextNode == node + 1
      ensures log == old(log) + [CreateNode(node, KindOf(fibers[f].ftype.value.tag)), UpdateNode(node, map[], fibers[f].props.fields)]
    {
      node := nextNode;
      nextNode := nextNode + 1;
      log := log + [CreateNode(node, KindOf(fibers[f].ftype.value.tag))];
      log := log + [UpdateNode(node, map[], fibers[f].props.fields)];
    }

    /**
     * reconcileChildren(wip, elements) on the globals: the arena becomes the
     * reconciled one and the unmatched old children join the deletion list.
     */
    method ReconcileChildren(wip: FiberId, elements: seq<Element>)
      requires Valid() && wip < |fibers|
      modifies this`fibers, this`deletions
      ensures fibers == Reconciled(old(fibers), wip, elements) && |fibers| == |old(fibers)| + |elements|
      ensures deletions == old(deletions) + Unmatched(old(fibers), wip, elements)
      ensures Valid()
    {
      ReconciledWellLinked(fibers, wip, elements);
      var r, queued := ReconcileArena(fibers, wip, elements);
      ReconciledValid(fibers, wip, elements, deletions, hookStore);
      fibers := r;
      deletions := deletions + queued;
    }

    /**
     * updateFunctionComponent(f): f becomes the fiber whose hooks are being
     * built, starting from none; the component is called, making one
     * useState call per initial value, and the one element it returns is
     * reconciled as f's child.
     */
    method UpdateFunctionComponent(f: FiberId)
      requires Valid() && f < |fibers| && IsComponent(fibers[f])
      modifies this`fibers, this`hookStore, this`deletions, this`wipFiber, this`hookIndex
      ensures Valid() && |old(fibers)| <= |fibers|
      ensures var comp := components(old(fibers)[f].ftype.value.id);
              var initials := comp.initials(old(fibers)[f].props);
              && wipFiber == Some(f) && hookIndex == Some(|initials|)
              && hookStore == old(hookStore) + FreshHooks(RenderStates(old(fibers), old(hookStore), f, initials))
              && fibers == FunctionRendered(old(fibers), old(hookStore), f, comp)
              && deletions == old(deletions) + FunctionUnmatched(old(fibers), old(hookStore), f, comp)
    {
      var comp := components(fibers[f].ftype.value.id);
      var props := fibers[f].props;
      var initials := comp.initials(props);
      wipFiber := Some(f);
      var states := CallHooks(f, initials);
      var element := comp.body(props, states);
      ReconcileChildren(f, [element]);
    }

    /**
     * The useState calls of one render of component fiber f, one per initial
     * value, starting from hook index 0 and no hooks on f.
     */
    method CallHooks(f: FiberId, initials: seq<Value>) returns (states: seq<Value>)
      requires Valid() && f < |fibers| && wipFiber == Some(f)
      modifies this`fibers, this`hookStore, this`hookIndex
      ensures Valid() && hookIndex == Some(|initials|)
      ensures states == RenderStates(old(fibers), old(hookStore), f, initials)
      ensures hookStore == old(hookStore) + FreshHooks(states)
      ensures fibers == WithHooks(old(fibers), f, |old(hookStore)|, |initials|)
    {
      ghost var fs0, store0 := fibers, hookStore;
      var n0 := |hookStore|;
      hookIndex := Some(0);
      NewHooksKeepLinks(fibers, hookStore, f, [], []);
      assert hookStore + [] == hookStore;
      fibers := fibers[f := fibers[f].(hooks := [])];
      assert seq(0, j => n0 + j) == [];
      states := [];
      var k := 0;
      while k < |initials|
        invariant k <= |initials| && Valid()
        invariant wipFiber == Some(f) && hookIndex == Some(k)
        invariant |states| == k && forall j | 0 <= j < k :: states[j] == NextState(OldHook(fs0, store0, f, j), initials[j])
        invariant hookStore == store0 + FreshHooks(states)
        invariant fibers == WithHooks(fs0, f, n0, k)
        modifies this`fibers, this`hookStore, this`hookIndex
      {
        NewHooksKeepLinks(fs0, store0, f, seq(k, j => n0 + j), FreshHooks(states));
        var state, hook := UseState(initials[k]);
        WithHooksStep(fs0, f, n0, k);
        FreshHooksSnoc(states, state);
        states := states + [state];
        k := k + 1;
      }
    }

    /**
     * updateHostComponent(f): f gets a host node if it has none, then its
     * props' children are reconciled as its children.
     */
    method UpdateHostComponent(f: FiberId)
      requires Valid() && f < |fibers| && !IsComponent(fibers[f])
      modifies this`fibers, this`deletions, this`log, this`nextNode
      ensures Valid() && |old(fibers)| <= |fibers|
      ensures fibers == HostRendered(old(fibers), f, old(nextNode))
      ensures deletions == old(deletions) + HostUnmatched(old(fibers), f, old(nextNode))
      ensures old(fibers)[f].dom.Some? ==> log == old(log) && nextNode == old(nextNode)
      ensures old(fibers)[f].dom.None? ==>
                && old(fibers)[f].ftype.Some? && old(fibers)[f].ftype.value.Host?
                && nextNode == old(nextNode) + 1
                && log == old(log) + [CreateNode(old(nextNode), KindOf(old(fibers)[f].ftype.value.tag)),
                                      UpdateNode(old(nextNode), map[], old(fibers)[f].props.fields)]
    {
      assert LinkOk(fibers, f);
      if fibers[f].dom.None? {
        var node := CreateDom(f);
        NewDomKeepsLinks(fibers, hookStore, f, node);
        fibers := fibers[f := fibers[f].(dom := Some(node))];
      }
      ReconcileChildren(f, fibers[f].props.children);
    }

    /**
     * performUnitOfWork(f): renders f by its kind, then returns the next
     * fiber to work on: f's first child, else the sibling of the nearest of
     * f and its ancestors that has one, else none.
     */
    method PerformUnitOfWork(f: FiberId) returns (next: Option<FiberId>)
      requires Valid() && f < |fibers|
      modifies this`fibers, this`hookStore, this`deletions, this`wipFiber, this`hookIndex, this`log, this`nextNode
      ensures Valid() && |old(fibers)| <= |fibers|
      ensures next == Successor(fibers, f) && (next.Some? ==> next.value < |fibers|)
      ensures IsComponent(old(fibers)[f]) ==>
                var comp := components(old(fibers)[f].ftype.value.id);
                var initials := comp.initials(old(fibers)[f].props);
                && fibers == FunctionRendered(old(fibers), old(hookStore), f, comp)
                && deletions == old(deletions) + FunctionUnmatched(old(fibers), old(hookStore), f, comp)
                && hookStore == old(hookStore) + FreshHooks(RenderStates(old(fibers), old(hookStore), f, initials))
                && wipFiber == Some(f) && hookIndex == Some(|initials|)
                && log == old(log) && nextNode == old(nextNode)
      ensures !IsComponent(old(fibers)[f]) ==>
                && fibers == HostRendered(old(fibers), f, old(nextNode))
                && deletions == old(deletions) + HostUnmatched(old(fibers), f, old(nextNode))
                && hookStore == old(hookStore) && wipFiber == old(wipFiber) && hookIndex == old(hookIndex)
      ensures |old(hookStore)| <= |hookStore|
      ensures RenderExtends(log, old(log), old(nextNode)) && old(nextNode) <= nextNode
      ensures Progress(fibers, hookStore, deletions, log, nextNode, next)
              == UnitStep(components, Progress(old(fibers), old(hookStore), old(deletions), old(log), old(nextNode), Some(f)))
    {
      if IsComponent(fibers[f]) {
        UpdateFunctionComponent(f);
      } else {
        UpdateHostComponent(f);
      }
      next := FindNextUnit(fibers, f);
    }

    /** `nextUnitOfWork = performUnitOfWork(nextUnitOfWork)`: one step of the render phase. */
    method Advance()
      requires Valid() && nextUnitOfWork.Some?
      modifies this`fibers, this`hookStore, this`deletions, this`wipFiber, this`hookIndex, this`log, this`nextNode,
               this`nextUnitOfWork
      ensures Valid() && Snapshot() == UnitStep(components, old(Snapshot()))
    {
      nextUnitOfWork := PerformUnitOfWork(nextUnitOfWork.value);
    }

    /** One step of the render phase, recorded at the end of a trace that ends in the current state. */
    method AdvanceTraced(ghost trace: seq<Progress>) returns (ghost trace': seq<Progress>)
      requires Valid() && nextUnitOfWork.Some?
      requires IsTrace(components, trace) && 0 < |trace| && trace[|trace| - 1] == Snapshot()
      requires Grows(trace[0], Snapshot())
      modifies this`fibers, this`hookStore, this`deletions, this`wipFiber, this`hookIndex, this`log, this`nextNode,
               this`nextUnitOfWork
      ensures Valid() && IsTrace(components, trace') && trace' == trace + [Snapshot()]
      ensures Grows(trace[0], Snapshot())
    {
      ghost var before := Snapshot();
      Advance();
      GrowsTrans(trace[0], before, Snapshot());
      TraceExtend(components, trace, Snapshot());
      trace' := trace + [Snapshot()];
    }

    /**
     * The loop of workLoop(deadline): performs units of work until none is
     * left or the deadline says to yield (`timeUp[k]` is `timeRemaining() < 1`
     * after the k-th unit; past its end the time is up). `trace` lists the
     * render state before the loop and after each unit.
     */
    method StepUntilYield(timeUp: seq<bool>) returns (units: nat, ghost trace: seq<Progress>)
      requires Valid()
      modifies this`fibers, this`hookStore, this`deletions, this`wipFiber, this`hookIndex, this`log, this`nextNode,
               this`nextUnitOfWork
      ensures Valid()
      ensures units <= |timeUp| + 1
      ensures old(nextUnitOfWork).None? <==> units == 0
      ensures nextUnitOfWork.Some? ==> 0 < units && (units - 1 >= |timeUp| || timeUp[units - 1])
      ensures RanOn(timeUp, units - 1)
      ensures |trace| == units + 1 && trace[0] == old(Snapshot()) && trace[units] == Snapshot()
      ensures IsTrace(components, trace) && Grows(old(Snapshot()), Snapshot())
    {
      units := 0;
      var shouldYield := false;
      trace := [Snapshot()];
      assert log[..|log|] == log && deletions[..|deletions|] == deletions;
      while nextUnitOfWork.Some? && !shouldYield
        invariant Valid()
        invariant units <= |timeUp| + 1 && (!shouldYield ==> units <= |timeUp|)
        invariant old(nextUnitOfWork).None? ==> units == 0
        invariant units == 0 ==> nextUnitOfWork == old(nextUnitOfWork) && !shouldYield
        invariant shouldYield ==> 0 < units && (units - 1 >= |timeUp| || timeUp[units - 1])
        invariant RanOn(timeUp, if shouldYield then units - 1 else units)
        invariant |trace| == units + 1 && trace[0] == old(Snapshot()) && trace[units] == Snapshot()
        invariant IsTrace(components, trace) && Grows(trace[0], Snapshot())
        decreases |timeUp| + 1 - units
      {
        trace := AdvanceTraced(trace);
        shouldYield := units >= |timeUp| || timeUp[units];
        units := units + 1;
      }
    }

    /**
     * The render part of workLoop(deadline): the render state it leaves is
     * `units` steps from the one it found, stopping at the first yield. It
     * only builds the new tree: the arena, the hooks and the deletion list
     * only grow, and the host only sees new nodes being created and filled.
     */
    method PerformUntilYield(timeUp: seq<bool>) returns (units: nat)
      requires Valid()
      modifies this`fibers, this`hookStore, this`deletions, this`wipFiber, this`hookIndex, this`log, this`nextNode,
               this`nextUnitOfWork
      ensures Valid()
      ensures |old(fibers)| <= |fibers| && |old(hookStore)| <= |hookStore|
      ensures |old(deletions)| <= |deletions| && deletions[..|old(deletions)|] == old(deletions)
      ensures RenderExtends(log, old(log), old(nextNode))
      ensures units <= |timeUp| + 1
      ensures old(nextUnitOfWork).None? <==> units == 0
      ensures nextUnitOfWork.Some? ==> 0 < units && (units - 1 >= |timeUp| || timeUp[units - 1])
      ensures forall k | 0 <= k < units - 1 :: k < |timeUp| && !timeUp[k]
      ensures Snapshot() == UnitSteps(components, old(Snapshot()), units)
    {
      ghost var trace;
      units, trace := StepUntilYield(timeUp);
      TraceIsSteps(components, trace, units);
    }

    /**
     * workLoop(deadline): the render part, then commitRoot when no unit is
     * left and there is a work-in-progress root, then the next callback is
     * registered unless the commit threw. `rendered` is the host log as the
     * render part leaves it; the commit's operations follow it.
     */
    method WorkLoop(timeUp: seq<bool>) returns (units: nat, committed: bool, completed: bool, ghost rendered: seq<HostOp>)
      requires Valid()
      modifies this`fibers, this`hookStore, this`deletions, this`wipFiber, this`hookIndex, this`log, this`nextNode,
               this`nextUnitOfWork, this`currentRoot, this`wipRoot, this`scheduled
      ensures Valid()
      ensures |old(fibers)| <= |fibers| && |old(hookStore)| <= |hookStore|
      ensures |old(deletions)| <= |deletions| && deletions[..|old(deletions)|] == old(deletions)
      ensures units <= |timeUp| + 1
      ensures old(nextUnitOfWork).None? <==> units == 0
      ensures nextUnitOfWork.Some? ==> 0 < units && (units - 1 >= |timeUp| || timeUp[units - 1])
      ensures RenderExtends(rendered, old(log), old(nextNode))
      ensures forall k | 0 <= k < units - 1 :: k < |timeUp| && !timeUp[k]
      ensures Progress(fibers, hookStore, deletions, rendered, nextNode, nextUnitOfWork)
              == UnitSteps(components, old(Snapshot()), units)
      ensures committed <==> nextUnitOfWork.None? && old(wipRoot).Some?
      ensures !committed ==> log == rendered && completed && currentRoot == old(currentRoot) && wipRoot == old(wipRoot)
      ensures committed ==> old(wipRoot).Some? && old(wipRoot).value < |fibers|
      ensures committed ==>
                && log == rendered + CommitOps(fibers, deletions, old(wipRoot).value).ops
                && completed == CommitOps(fibers, deletions, old(wipRoot).value).completed
      ensures committed && completed ==> currentRoot == old(wipRoot) && wipRoot.None?
      ensures committed && !completed ==> currentRoot == old(currentRoot) && wipRoot == old(wipRoot)
      ensures scheduled == completed
    {
      units := PerformUntilYield(timeUp);
      rendered := log;
      committed := false;
      completed := true;
      if nextUnitOfWork.None? && wipRoot.Some? {
        completed := CommitRoot();
        committed := true;
      }
      scheduled := completed;
    }

    /**
     * commitRoot(): the queued deletions are committed, then the new tree
     * from the root's child; on success the work-in-progress root becomes
     * the current root. The queued fibers are not cleared.
     */
    method CommitRoot() returns (completed: bool)
      requires Valid() && wipRoot.Some?
      modifies this`log, this`currentRoot, this`wipRoot
      ensures Valid()
      ensures log == old(log) + CommitOps(fibers, deletions, old(wipRoot).value).ops
      ensures completed == CommitOps(fibers, deletions, old(wipRoot).value).completed
      ensures completed ==> currentRoot == old(wipRoot) && wipRoot.None?
      ensures !completed ==> currentRoot == old(currentRoot) && wipRoot == old(wipRoot)
    {
      var root := wipRoot.value;
      assert LinkOk(fibers, root);
      ghost var dels := FixedDeletionsOps(fibers, deletions);
      ghost var walk := WorkOps(fibers, fibers[root].child);
      completed := CommitDeletions(fibers, deletions);
      if completed {
        completed := CommitWork(fibers, fibers[root].child);
        ThenIssues(old(log), dels, walk);
      }
      if completed {
        currentRoot := wipRoot;
        wipRoot := None;
      }
    }

    /**
     * The deletion pass of commitRoot, corrected: commitDeletion for each
     * queued fiber in list order, against the node of its nearest ancestor
     * that has one, stopping at the first failure.
     */
    method CommitDeletions(fs: seq<Fiber>, dels: seq<FiberId>) returns (completed: bool)
      requires WellLinked(fs) && Committable(fs, dels)
      modifies this`log
      ensures log == old(log) + FixedDeletionsOps(fs, dels).ops
      ensures completed == FixedDeletionsOps(fs, dels).completed
    {
      completed := true;
      var i := 0;
      while i < |dels| && completed
        invariant i <= |dels| && Committable(fs, dels[..i])
        invariant log == old(log) + FixedDeletionsOps(fs, dels[..i]).ops
        invariant completed == FixedDeletionsOps(fs, dels[..i]).completed
      {
        var d := dels[i];
        var p := FindDomParent(fs, d);
        assert dels[..i + 1][..i] == dels[..i];
        ghost var log1 := log;
        completed := CommitDeletion(fs, d, fs[p].dom.value);
        i := i + 1;
      }
      if !completed {
        FixedDeletionsFailureSticks(fs, dels, i);
      } else {
        assert dels[..i] == dels;
      }
    }

    /**
     * commitWork(f): f's own host operation, then its child's and its
     * sibling's walks, stopping at the first failure; so the fibers' own
     * operations in pre-order.
     */
    method CommitWork(fs: seq<Fiber>, f: Option<FiberId>) returns (completed: bool)
      requires WellLinked(fs) && (f.Some? ==> f.value < |fs| && fs[f.value].parent.Some?)
      modifies this`log
      ensures log == old(log) + WorkOps(fs, f).ops && completed == WorkOps(fs, f).completed
      ensures f.Some? ==> && Committable(fs, Order(fs, f.value))
                          && log == old(log) + InOrder(fs, Order(fs, f.value)).ops
                          && completed == InOrder(fs, Order(fs, f.value)).completed
      decreases if f.Some? then |fs| - f.value else 0
    {
      if f.None? {
        return true;
      }
      var x := f.value;
      WorkOpsFollowsOrder(fs, x);
      WorkOpsStep(fs, x);
      ghost var own, down, across := OwnOps(fs, x), WorkOps(fs, fs[x].child), WorkOps(fs, fs[x].sibling);
      completed := CommitEffect(fs, x);
      if completed {
        completed := CommitWork(fs, fs[x].child);
        ThenIssues(old(log), own, down);
        if completed {
          completed := CommitWork(fs, fs[x].sibling);
          ThenIssues(old(log), Then(own, down), across);
        }
      }
    }

    /**
     * The first part of commitWork(f): the node of f's nearest ancestor that
     * has one is found; then a PLACEMENT fiber's node is appended to it, an
     * UPDATE fiber's node is updated from the alternate's props to f's, and
     * a DELETION fiber is handed to commitDeletion.
     */
    method CommitEffect(fs: seq<Fiber>, x: FiberId) returns (completed: bool)
      requires WellLinked(fs) && x < |fs| && fs[x].parent.Some?
      modifies this`log
      ensures log == old(log) + OwnOps(fs, x).ops && completed == OwnOps(fs, x).completed
    {
      assert LinkOk(fs, x);
      var p := FindDomParent(fs, x);
      var domParent := fs[p].dom.value;
      var fiber := fs[x];
      completed := true;
      if fiber.effectTag == Some(Placement) && fiber.dom.Some? {
        log := log + [AppendChild(domParent, fiber.dom.value)];
      } else if fiber.effectTag == Some(Update) && fiber.dom.Some? {
        log := log + [UpdateNode(fiber.dom.value, fs[fiber.alternate.value].props.fields, fiber.props.fields)];
      } else if fiber.effectTag == Some(Deletion) {
        completed := CommitDeletion(fs, x, domParent);
      }
    }

    /**
     * commitDeletion(f, domParent): removes f's node from domParent, or, when
     * f has none, recurs into f's child; a missing child is the TypeError.
     */
    method CommitDeletion(fs: seq<Fiber>, f: FiberId, domParent: NodeId) returns (completed: bool)
      requires WellLinked(fs) && f < |fs|
      modifies this`log
      ensures log == old(log) + DeletionOutcome(fs, f, domParent).ops
      ensures completed == DeletionOutcome(fs, f, domParent).completed
      decreases |fs| - f
    {
      assert LinkOk(fs, f);
      if fs[f].dom.Some? {
        log := log + [RemoveChild(domParent, fs[f].dom.value)];
        completed := true;
      } else if fs[f].child.Some? {
        completed := CommitDeletion(fs, fs[f].child.value, domParent);
      } else {
        completed := false;
      }
    }
  }

  /** Hooks holding the given states, with empty queues. */
  function FreshHooks(states: seq<Value>): seq<Hook>
  {
    seq(|states|, j requires 0 <= j < |states| => Hook(states[j], []))
  }

  /** The arena once fiber f holds `count` hooks numbered from `first`. */
  function WithHooks(fs: seq<Fiber>, f: FiberId, first: nat, count: nat): seq<Fiber>
    requires f < |fs|
  {
    fs[f := fs[f].(hooks := seq(count, j => first + j))]
  }

  /**
   * The queue of the old hook, if any, applied action by action to its
   * state, or to the initial value when there is no old hook or its state
   * is nullish.
   */
  method ApplyQueue(oldHook: Option<Hook>, initial: Value) returns (state: Value)
    ensures state == NextState(oldHook, initial)
  {
    state := if oldHook.Some? && !Nullish(oldHook.value.state) then oldHook.value.state else initial;
    var actions := if oldHook.Some? then oldHook.value.queue else [];
    var i := 0;
    while i < |actions|
      invariant 0 <= i <= |actions|
      invariant state == Fold(Seed(oldHook, initial), actions[..i])
    {
      assert actions[..i + 1][..i] == actions[..i];
      state := actions[i](state);
      i := i + 1;
    }
    assert actions[..i] == Pending(oldHook);
  }

  /** One more hook, numbered next, on fiber f. */
  lemma WithHooksStep(fs: seq<Fiber>, f: FiberId, first: nat, count: nat)
    requires f < |fs|
    ensures var w := WithHooks(fs, f, first, count);
            w[f := w[f].(hooks := w[f].hooks + [first + count])] == WithHooks(fs, f, first, count + 1)
  {
    assert seq(count, j => first + j) + [first + count] == seq(count + 1, j => first + j);
  }

  lemma FreshHooksSnoc(states: seq<Value>, state: Value)
    ensures FreshHooks(states) + [Hook(state, [])] == FreshHooks(states + [state])
  {
    assert FreshHooks(states + [state])[|states|] == Hook(state, []);
  }

  /** The arena once fiber f owns `node`, if it had no node. */
  function WithDom(fs: seq<Fiber>, f: FiberId, node: NodeId): seq<Fiber>
    requires f < |fs|
  {
    if fs[f].dom.None? then fs[f := fs[f].(dom := Some(node))] else fs
  }

  /** The arena after updateFunctionComponent(f) with component `comp`. */
  function FunctionRendered(fs: seq<Fiber>, store: seq<Hook>, f: FiberId, comp: FunctionComponent): seq<Fiber>
    requires WellLinked(fs) && HooksIn(fs, store) && f < |fs|
  {
    var initials := comp.initials(fs[f].props);
    var states := RenderStates(fs, store, f, initials);
    NewHooksKeepLinks(fs, store, f, seq(|initials|, j => |store| + j), FreshHooks(states));
    Reconciled(WithHooks(fs, f, |store|, |initials|), f, [comp.body(fs[f].props, states)])
  }

  /** The arena after updateHostComponent(f), `node` being the id a created node gets. */
  function HostRendered(fs: seq<Fiber>, f: FiberId, node: NodeId): seq<Fiber>
    requires WellLinked(fs) && f < |fs|
  {
    NewDomKeepsLinks(fs, [], f, node);
    Reconciled(WithDom(fs, f, node), f, fs[f].props.children)
  }

  /** What the render phase works on: the arena, the hooks, the deletion list, the host log, the next node id and the next unit. */
  datatype Progress = Progress(
    fibers: seq<Fiber>, hooks: seq<Hook>, deletions: seq<FiberId>, log: seq<HostOp>, nextNode: NodeId, next: Option<FiberId>)

  /** The next unit after f in the arena f's work left, when that arena is well linked. */
  function NextAfter(fs: seq<Fiber>, f: FiberId): Option<FiberId>
  {
    if WellLinked(fs) && f < |fs| then Successor(fs, f) else None
  }

  /**
   * q is p with more: a larger arena and hook store, the deletion list
   * extended at its end, and only render operations on new nodes logged.
   */
  predicate Grows(p: Progress, q: Progress)
  {
    && |p.fibers| <= |q.fibers| && |p.hooks| <= |q.hooks|
    && |p.deletions| <= |q.deletions| && q.deletions[..|p.deletions|] == p.deletions
    && RenderExtends(q.log, p.log, p.nextNode) && p.nextNode <= q.nextNode
  }

  /** There is a next unit, inside an arena that keeps its invariant. */
  predicate Ready(p: Progress)
  {
    WellLinked(p.fibers) && HooksIn(p.fibers, p.hooks) && p.next.Some? && p.next.value < |p.fibers|
  }

  /**
   * One unit of work on the next fiber, as performUnitOfWork does it: a
   * component is rendered with its hooks and its one element, a host fiber
   * gets a node if it has none and its children; the unmatched old children
   * are queued and the walk moves to the successor. With no next unit, or
   * outside the arena's invariant, nothing changes.
   */
  function UnitStep(components: nat -> FunctionComponent, p: Progress): (q: Progress)
    ensures p.next.None? ==> q == p
    ensures Grows(p, q)
  {
    if !Ready(p) then p
    else if IsComponent(p.fibers[p.next.value]) then ComponentStep(components, p)
    else HostStep(p)
  }

  /** updateFunctionComponent on the next fiber, then the move to its successor. */
  function ComponentStep(components: nat -> FunctionComponent, p: Progress): (q: Progress)
    requires Ready(p) && IsComponent(p.fibers[p.next.value])
    ensures |p.fibers| < |q.fibers| && |p.hooks| <= |q.hooks|
    ensures |p.deletions| <= |q.deletions| && q.deletions[..|p.deletions|] == p.deletions && q.log == p.log && q.nextNode == p.nextNode
  {
    var f, fs := p.next.value, p.fibers;
    var comp := components(fs[f].ftype.value.id);
    var states := RenderStates(fs, p.hooks, f, comp.initials(fs[f].props));
    var fs' := FunctionRendered(fs, p.hooks, f, comp);
    NewHooksKeepLinks(fs, p.hooks, f, seq(|states|, j => |p.hooks| + j), FreshHooks(states));
    ReconciledKeeps(WithHooks(fs, f, |p.hooks|, |states|), f, [comp.body(fs[f].props, states)]);
    var dels := p.deletions + FunctionUnmatched(fs, p.hooks, f, comp);
    assert dels[..|p.deletions|] == p.deletions;
    Progress(fs', p.hooks + FreshHooks(states), dels, p.log, p.nextNode, NextAfter(fs', f))
  }

  /** updateHostComponent on the next fiber, then the move to its successor. */
  function HostStep(p: Progress): (q: Progress)
    requires Ready(p) && !IsComponent(p.fibers[p.next.value])
    ensures |p.fibers| <= |q.fibers| && q.hooks == p.hooks
    ensures |p.deletions| <= |q.deletions| && q.deletions[..|p.deletions|] == p.deletions && RenderExtends(q.log, p.log, p.nextNode)
    ensures p.nextNode <= q.nextNode
  {
    var f, fs := p.next.value, p.fibers;
    assert LinkOk(fs, f);
    var fs' := HostRendered(fs, f, p.nextNode);
    NewDomKeepsLinks(fs, [], f, p.nextNode);
    ReconciledKeeps(WithDom(fs, f, p.nextNode), f, fs[f].props.children);
    var dels := p.deletions + HostUnmatched(fs, f, p.nextNode);
    assert dels[..|p.deletions|] == p.deletions;
    if fs[f].dom.Some? then
      Progress(fs', p.hooks, dels, p.log, p.nextNode, NextAfter(fs', f))
    else
      var created := [CreateNode(p.nextNode, KindOf(fs[f].ftype.value.tag)), UpdateNode(p.nextNode, map[], fs[f].props.fields)];
      assert (p.log + created)[..|p.log|] == p.log;
      Progress(fs', p.hooks, dels, p.log + created, p.nextNode + 1, NextAfter(fs', f))
  }

  /** n units of work, one after the other. */
  function UnitSteps(components: nat -> FunctionComponent, p: Progress, n: nat): Progress
  {
    if n == 0 then p else UnitStep(components, UnitSteps(components, p, n - 1))
  }

  /** Each state of the trace is one step after the one before it. */
  ghost predicate IsTrace(components: nat -> FunctionComponent, trace: seq<Progress>)
  {
    forall i | 0 <= i < |trace| - 1 :: trace[i + 1] == UnitStep(components, trace[i])
  }

  /** A trace grows by the step after its last state. */
  lemma TraceExtend(components: nat -> FunctionComponent, trace: seq<Progress>, p: Progress)
    requires IsTrace(components, trace) && 0 < |trace| && p == UnitStep(components, trace[|trace| - 1])
    ensures IsTrace(components, trace + [p])
  {
  }

  /** A trace of states, each one step after the one before, ends n steps after its start. */
  lemma {:induction false} TraceIsSteps(components: nat -> FunctionComponent, trace: seq<Progress>, n: nat)
    requires |trace| == n + 1
    requires IsTrace(components, trace)
    ensures trace[n] == UnitSteps(components, trace[0], n)
  {
    if n > 0 {
      assert IsTrace(components, trace[..n]) by {
        forall i | 0 <= i < n - 1 ensures trace[..n][i + 1] == UnitStep(components, trace[..n][i]) {
          assert trace[..n][i + 1] == trace[i + 1] && trace[..n][i] == trace[i];
        }
      }
      TraceIsSteps(components, trace[..n], n - 1);
    }
  }

  /** No deadline check among the first n said to yield. */
  predicate RanOn(timeUp: seq<bool>, n: int)
  {
    forall k | 0 <= k < n :: k < |timeUp| && !timeUp[k]
  }

  /** Growing twice is growing. */
  lemma GrowsTrans(p: Progress, r: Progress, q: Progress)
    requires Grows(p, r) && Grows(r, q)
    ensures Grows(p, q)
  {
    RenderExtendsTrans(p.log, r.log, q.log, p.nextNode, r.nextNode);
    assert q.deletions[..|p.deletions|] == q.deletions[..|r.deletions|][..|p.deletions|];
  }

  /** Once no unit is left, further steps change nothing: the render phase is over. */
  lemma {:induction false} UnitStepsStop(components: nat -> FunctionComponent, p: Progress, n: nat)
    requires p.next.None?
    ensures UnitSteps(components, p, n) == p
  {
    if n > 0 {
      UnitStepsStop(components, p, n - 1);
    }
  }

  /**
   * The loop of reconcileChildren: walks the old child chain and the
   * elements side by side, appending one new fiber per element, tagging
   * unmatched old fibers DELETION and queueing them, and linking the new
   * fibers as wip's children.
   */
  method ReconcileArena(fs: seq<Fiber>, wip: FiberId, elements: seq<Element>) returns (r: seq<Fiber>, queued: seq<FiberId>)
    requires WellLinked(fs) && wip < |fs|
    ensures r == Reconciled(fs, wip, elements)
    ensures queued == Unmatched(fs, wip, elements)
  {
    // The old fibers and the fibers this call makes are kept apart while
    // the loop runs; a new fiber's id is its position after the old ones.
    var olds := fs;
    var made: seq<Fiber> := [];
    var dels: seq<FiberId> := [];
    ghost var oc := OldChildren(fs, wip);
    OldChildrenFirst(fs, wip);
    assert LinkOk(olds, wip);
    var index := 0;
    var oldFiber: Option<FiberId> := None;
    if olds[wip].alternate.Some? {
      assert LinkOk(olds, olds[wip].alternate.value);
      oldFiber := olds[olds[wip].alternate.value].child;
    }
    var prevSibling: Option<FiberId> := None;
    while index < |elements| || oldFiber.Some?
      invariant index <= Rounds(fs, wip, elements)
      invariant oldFiber == if index < |oc| then Some(oc[index]) else None
      invariant olds == OldsAt(fs, wip, elements, index)
      invariant made == MadeAt(fs, wip, elements, index)
      invariant prevSibling == if 0 < index <= |elements| then Some(|fs| + index - 1) else None
      invariant dels == UnmatchedUpTo(fs, wip, elements, index)
      decreases Rounds(fs, wip, elements) - index
    {
      olds, made, dels, oldFiber, prevSibling := ReconcileRound(fs, wip, elements, index, olds, made, dels, oldFiber, prevSibling);
      index := index + 1;
    }
    assert index == Rounds(fs, wip, elements);
    assert Min(index, |elements|) == |elements|;
    r := olds + made;
    queued := dels;
  }

  /**
   * One pass of that loop's body, round `index`: the fiber for the element
   * (UPDATE when the old fiber has the same type, PLACEMENT otherwise), the
   * DELETION tag and queueing of an unmatched old fiber, the move to the
   * next old fiber, and the link from wip or from the previous new fiber.
   */
  method ReconcileRound(fs: seq<Fiber>, wip: FiberId, elements: seq<Element>, index: nat,
                        olds: seq<Fiber>, made: seq<Fiber>, dels: seq<FiberId>,
                        oldFiber: Option<FiberId>, prevSibling: Option<FiberId>)
    returns (olds': seq<Fiber>, made': seq<Fiber>, dels': seq<FiberId>, oldFiber': Option<FiberId>, prevSibling': Option<FiberId>)
    requires WellLinked(fs) && wip < |fs|
    requires index < |elements| || oldFiber.Some?
    requires oldFiber == if index < |OldChildren(fs, wip)| then Some(OldChildren(fs, wip)[index]) else None
    requires olds == OldsAt(fs, wip, elements, index)
    requires made == MadeAt(fs, wip, elements, index)
    requires prevSibling == if 0 < index <= |elements| then Some(|fs| + index - 1) else None
    requires dels == UnmatchedUpTo(fs, wip, elements, index)
    ensures index < Rounds(fs, wip, elements)
    ensures oldFiber' == if index + 1 < |OldChildren(fs, wip)| then Some(OldChildren(fs, wip)[index + 1]) else None
    ensures olds' == OldsAt(fs, wip, elements, index + 1)
    ensures made' == MadeAt(fs, wip, elements, index + 1)
    ensures prevSibling' == if index + 1 <= |elements| then Some(|fs| + index) else None
    ensures dels' == UnmatchedUpTo(fs, wip, elements, index + 1)
  {
    var element: Option<Element> := if index < |elements| then Some(elements[index]) else None;
    var sameType := oldFiber.Some? && element.Some? && olds[oldFiber.value].ftype == Some(element.value.etype);
    assert sameType == SameType(fs, wip, elements, index);
    var newFiber;
    made', newFiber := RoundMade(fs, wip, elements, index, olds, made, oldFiber, prevSibling, sameType);
    olds', dels', oldFiber' := RoundOlds(fs, wip, elements, index, olds, dels, oldFiber, sameType, newFiber);
    prevSibling' := newFiber;
  }

  /**
   * The new-fiber side of a round: the UPDATE or PLACEMENT fiber for the
   * element, if there is one, linked as the previous new fiber's sibling.
   */
  method RoundMade(fs: seq<Fiber>, wip: FiberId, elements: seq<Element>, index: nat,
                   olds: seq<Fiber>, made: seq<Fiber>, oldFiber: Option<FiberId>, prevSibling: Option<FiberId>, sameType: bool)
    returns (made': seq<Fiber>, newFiber: Option<FiberId>)
    requires WellLinked(fs) && wip < |fs|
    requires oldFiber == if index < |OldChildren(fs, wip)| then Some(OldChildren(fs, wip)[index]) else None
    requires olds == OldsAt(fs, wip, elements, index)
    requires made == MadeAt(fs, wip, elements, index)
    requires prevSibling == if 0 < index <= |elements| then Some(|fs| + index - 1) else None
    requires sameType == SameType(fs, wip, elements, index)
    ensures made' == MadeAt(fs, wip, elements, index + 1)
    ensures newFiber == if index < |elements| then Some(|fs| + index) else None
  {
    var n0 := |fs|;
    made' := made;
    newFiber := None;
    if sameType {
      var o := oldFiber.value;
      assert olds[o] == RetagAt(fs, wip, elements, index, o);
      made' := made' + [Fiber(olds[o].ftype, elements[index].props, olds[o].dom, Some(wip), None, None, oldFiber, Some(Update), [])];
      newFiber := Some(n0 + |made'| - 1);
    } else if index < |elements| {
      made' := made' + [Fiber(Some(elements[index].etype), elements[index].props, None, Some(wip), None, None, None, Some(Placement), [])];
      newFiber := Some(n0 + |made'| - 1);
    }
    assert made' == if index < |elements| then made + [Fresh(fs, wip, elements, index)] else made;
    MadeAtStep(fs, wip, elements, index);
    if index > 0 && index < |elements| {
      var p := prevSibling.value - n0;
      made' := made'[p := made'[p].(sibling := newFiber)];
    }
  }

  /**
   * The old-fiber side of a round: an unmatched old fiber is tagged
   * DELETION and queued, the walk moves to its sibling, and in the first
   * round wip's child becomes the new fiber.
   */
  method RoundOlds(fs: seq<Fiber>, wip: FiberId, elements: seq<Element>, index: nat,
                   olds: seq<Fiber>, dels: seq<FiberId>, oldFiber: Option<FiberId>, sameType: bool, newFiber: Option<FiberId>)
    returns (olds': seq<Fiber>, dels': seq<FiberId>, oldFiber': Option<FiberId>)
    requires WellLinked(fs) && wip < |fs|
    requires oldFiber == if index < |OldChildren(fs, wip)| then Some(OldChildren(fs, wip)[index]) else None
    requires olds == OldsAt(fs, wip, elements, index)
    requires dels == UnmatchedUpTo(fs, wip, elements, index)
    requires sameType == SameType(fs, wip, elements, index)
    requires newFiber == if index < |elements| then Some(|fs| + index) else None
    ensures oldFiber' == if index + 1 < |OldChildren(fs, wip)| then Some(OldChildren(fs, wip)[index + 1]) else None
    ensures olds' == OldsAt(fs, wip, elements, index + 1)
    ensures dels' == UnmatchedUpTo(fs, wip, elements, index + 1)
  {
    ghost var oc := OldChildren(fs, wip);
    olds', dels' := olds, dels;
    if oldFiber.Some? && !sameType {
      olds' := olds'[oldFiber.value := olds'[oldFiber.value].(effectTag := Some(Deletion))];
      dels' := dels' + [oldFiber.value];
    }
    UnmatchedUpToStep(fs, wip, elements, index);
    assert olds' == if index < |oc| && !SameType(fs, wip, elements, index) then olds[oc[index] := olds[oc[index]].(effectTag := Some(Deletion))] else olds;
    oldFiber' := None;
    if oldFiber.Some? {
      assert olds'[oc[index]] == RetagAt(fs, wip, elements, index, oc[index]).(effectTag := olds'[oc[index]].effectTag);
      OldChildrenNext(fs, wip, index);
      oldFiber' := olds'[oldFiber.value].sibling;
    }
    OldsAtStep(fs, wip, elements, index);
    if index == 0 {
      olds' := olds'[wip := olds'[wip].(child := newFiber)];
    }
  }

  /** The reconciled arena keeps the globals' invariant, with the unmatched old children queued. */
  lemma ReconciledValid(fs0: seq<Fiber>, wip: FiberId, elements: seq<Element>, dels0: seq<FiberId>, store: seq<Hook>)
    requires WellLinked(fs0) && wip < |fs0| && HooksIn(fs0, store) && Committable(fs0, dels0)
    ensures WellLinked(Reconciled(fs0, wip, elements))
    ensures HooksIn(Reconciled(fs0, wip, elements), store)
    ensures Committable(Reconciled(fs0, wip, elements), dels0 + Unmatched(fs0, wip, elements))
  {
    var n0 := |fs0|;
    var r := Reconciled(fs0, wip, elements);
    var dels := dels0 + Unmatched(fs0, wip, elements);
    ReconciledWellLinked(fs0, wip, elements);
    ReconciledKeeps(fs0, wip, elements);
    forall i | 0 <= i < |dels| ensures dels[i] < |r| && r[dels[i]].parent.Some? {
      if i < |dels0| {
        assert dels0[i] < n0 && fs0[dels0[i]].parent.Some?;
      } else {
        assert dels[i] in Unmatched(fs0, wip, elements);
      }
    }
    forall i, k | 0 <= i < |r| && 0 <= k < |r[i].hooks| ensures r[i].hooks[k] < |store| {
      if i < n0 {
        assert r[i].hooks == fs0[i].hooks;
      }
    }
  }

  /** The old children updateFunctionComponent(f) queues for deletion. */
  function FunctionUnmatched(fs: seq<Fiber>, store: seq<Hook>, f: FiberId, comp: FunctionComponent): seq<FiberId>
    requires WellLinked(fs) && HooksIn(fs, store) && f < |fs|
  {
    var initials := comp.initials(fs[f].props);
    var states := RenderStates(fs, store, f, initials);
    NewHooksKeepLinks(fs, store, f, seq(|initials|, j => |store| + j), FreshHooks(states));
    Unmatched(WithHooks(fs, f, |store|, |initials|), f, [comp.body(fs[f].props, states)])
  }

  /** The old children updateHostComponent(f) queues for deletion. */
  function HostUnmatched(fs: seq<Fiber>, f: FiberId, node: NodeId): seq<FiberId>
    requires WellLinked(fs) && f < |fs|
  {
    NewDomKeepsLinks(fs, [], f, node);
    Unmatched(WithDom(fs, f, node), f, fs[f].props.children)
  }

  /** Giving a fiber without a node its new node changes no link and no hook. */
  lemma NewDomKeepsLinks(fs: seq<Fiber>, store: seq<Hook>, f: FiberId, node: NodeId)
    requires WellLinked(fs) && f < |fs|
    ensures |WithDom(fs, f, node)| == |fs|
    ensures WellLinked(WithDom(fs, f, node))
    ensures HooksIn(fs, store) ==> HooksIn(WithDom(fs, f, node), store)
    ensures forall i | 0 <= i < |fs| :: WithDom(fs, f, node)[i].parent == fs[i].parent && WithDom(fs, f, node)[i].hooks == fs[i].hooks
  {
    if fs[f].dom.None? {
      ReplaceContentWellLinked(fs, f, fs[f].(dom := Some(node)));
    }
  }
}

/**
 * The state hook (src/myReact/hooks.ts) as values: a hook holds the state of
 * the last render and the actions queued on it since; the next render takes
 * the hook at the same position of the alternate fiber and folds its queue,
 * in enqueue order, over its state.
 *
 * Hooks live in a store of their own, named by index, because a `setState`
 * closure keeps a reference to one particular hook object.
 */
module HookSpec {
  import opened Optional
  import opened Elements
  import opened FiberTree

  /** A queued state update, `(prevState) => nextState`. */
  type Action = Value -> Value

  datatype Hook = Hook(state: Value, queue: seq<Action>)

  /** The actions applied one after the other, oldest first. */
  function Fold(s: Value, q: seq<Action>): Value
  {
    if q == [] then s else q[|q| - 1](Fold(s, q[..|q| - 1]))
  }

  /** Folding two batches is folding the first, then the second. */
  lemma {:induction false} FoldConcat(s: Value, a: seq<Action>, b: seq<Action>)
    ensures Fold(s, a + b) == Fold(Fold(s, a), b)
    decreases |b|
  {
    if b == [] {
      assert a + b == a;
    } else {
      assert (a + b)[..|a + b| - 1] == a + b[..|b| - 1];
      assert (a + b)[|a + b| - 1] == b[|b| - 1];
      FoldConcat(s, a, b[..|b| - 1]);
    }
  }

  /** The values `??` treats as absent. */
  predicate Nullish(v: Value)
  {
    v.Undefined? || v.Null?
  }

  /** The state a fold starts from: the old hook's state, unless there is none or it is nullish. */
  function Seed(oldHook: Option<Hook>, initial: Value): Value
  {
    if oldHook.Some? && !Nullish(oldHook.value.state) then oldHook.value.state else initial
  }

  /** The actions to replay: the old hook's queue, or none. */
  function Pending(oldHook: Option<Hook>): seq<Action>
  {
    if oldHook.Some? then oldHook.value.queue else []
  }

  /** The state useState returns and stores in the new hook. */
  function NextState(oldHook: Option<Hook>, initial: Value): Value
  {
    Fold(Seed(oldHook, initial), Pending(oldHook))
  }

  /** Every hook id held by a fiber names a hook of the store. */
  predicate HooksIn(fs: seq<Fiber>, store: seq<Hook>)
  {
    forall i, k | 0 <= i < |fs| && 0 <= k < |fs[i].hooks| :: fs[i].hooks[k] < |store|
  }

  /**
   * `wipFiber.alternate.hooks[hookIndex]`: the hook at the same position in
   * the previous render of this fiber, when there is one.
   */
  function OldHook(fs: seq<Fiber>, store: seq<Hook>, wip: FiberId, idx: nat): (h: Option<Hook>)
    requires WellLinked(fs) && HooksIn(fs, store) && wip < |fs|
    ensures h.Some? ==> fs[wip].alternate.Some?
  {
    assert LinkOk(fs, wip);
    var alt := fs[wip].alternate;
    if alt.Some? && idx < |fs[alt.value].hooks| then Some(store[fs[alt.value].hooks[idx]]) else None
  }

  /**
   * Actions queued by several setState calls before the next render are all
   * applied, after the state the hook already had, in the order they were
   * queued.
   */
  lemma QueuedActionsApplyInOrder(h: Hook, initial: Value, later: seq<Action>)
    ensures NextState(Some(h.(queue := h.queue + later)), initial) == Fold(NextState(Some(h), initial), later)
  {
    FoldConcat(Seed(Some(h), initial), h.queue, later);
  }

  /**
   * A hook whose queue is empty gives back its state on the next render,
   * unless that state is null or undefined: then the render starts over from
   * the initial value.
   */
  lemma {:induction false} StateSurvivesRerender(state: Value, initial: Value)
    ensures NextState(Some(Hook(state, [])), initial) == if Nullish(state) then initial else state
  {
  }

  /** Without an old hook the state is the initial value. */
  lemma FirstRenderUsesInitial(initial: Value)
    ensures NextState(None, initial) == initial
  {
  }

  /** A counter: state 0 with one queued increment renders as 1. */
  lemma {:induction false} CounterExample(inc: Action)
    requires forall v: Value :: v.Num? ==> inc(v) == Num(v.n + 1)
    ensures NextState(Some(Hook(Num(0), [inc])), Num(0)) == Num(1)
  {
    assert Fold(Num(0), [inc]) == inc(Fold(Num(0), []));
  }

  /** The states one render of a component reads, one per useState call, in call order. */
  function RenderStates(fs: seq<Fiber>, store: seq<Hook>, wip: FiberId, initials: seq<Value>): (r: seq<Value>)
    requires WellLinked(fs) && HooksIn(fs, store) && wip < |fs|
    ensures |r| == |initials|
  {
    seq(|initials|, k requires 0 <= k < |initials| => NextState(OldHook(fs, store, wip, k), initials[k]))
  }

  /**
   * Giving fiber w a new list of hooks, drawn from a store that only grew,
   * changes no link, and the old hooks its alternate offers stay the same.
   */
  lemma NewHooksKeepLinks(fs: seq<Fiber>, store: seq<Hook>, w: FiberId, ids: seq<HookId>, extra: seq<Hook>)
    requires WellLinked(fs) && HooksIn(fs, store) && w < |fs|
    requires forall k | 0 <= k < |ids| :: ids[k] < |store| + |extra|
    ensures var fs' := fs[w := fs[w].(hooks := ids)];
            && WellLinked(fs') && HooksIn(fs', store + extra)
            && (forall i | 0 <= i < |fs| :: fs'[i].parent == fs[i].parent)
            && forall idx: nat :: OldHook(fs', store + extra, w, idx) == OldHook(fs, store, w, idx)
  {
    var fs' := fs[w := fs[w].(hooks := ids)];
    ReplaceContentWellLinked(fs, w, fs'[w]);
    forall i, k | 0 <= i < |fs'| && 0 <= k < |fs'[i].hooks| ensures fs'[i].hooks[k] < |store + extra| {
      if i != w {
        assert fs'[i].hooks[k] == fs[i].hooks[k];
      }
    }
    assert LinkOk(fs, w);
    forall idx: nat ensures OldHook(fs', store + extra, w, idx) == OldHook(fs, store, w, idx) {
      var alt := fs[w].alternate;
      if alt.Some? && idx < |fs[alt.value].hooks| {
        assert fs'[alt.value] == fs[alt.value];
        assert (store + extra)[fs[alt.value].hooks[idx]] == store[fs[alt.value].hooks[idx]];
      }
    }
  }
}

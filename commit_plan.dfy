/**
 * The commit phase (src/myReact/scheduler.ts) as the sequence of host
 * operations it issues. The host is seen only through these operations;
 * what an update does to one node is DomProps.Updated.
 *
 * Commit only reads the fiber arena, so every function here is a function
 * of the arena. An Outcome records the operations issued and whether the
 * walk completed or stopped on the TypeError that commitDeletion raises when
 * it runs out of fibers.
 */
module CommitPlan {
  import opened Optional
  import opened Elements
  import opened DomProps
  import opened FiberTree

  datatype NodeKind = TextNode | ElementNode(tag: string)

  datatype HostOp =
    | CreateNode(node: NodeId, kind: NodeKind)
    | UpdateNode(node: NodeId, prev: PropMap, next: PropMap)
    | AppendChild(parent: NodeId, node: NodeId)
    | RemoveChild(parent: NodeId, node: NodeId)

  datatype Outcome = Outcome(ops: seq<HostOp>, completed: bool)

  /** The host node of the nearest ancestor that has one. */
  function ParentNode(fs: seq<Fiber>, f: FiberId): NodeId
    requires WellLinked(fs) && f < |fs| && fs[f].parent.Some?
  {
    fs[DomParent(fs, f)].dom.value
  }

  /** The fibers reached from f by following `child` only: f, its first child, that one's first child, ... */
  function LeftSpine(fs: seq<Fiber>, f: FiberId): (s: seq<FiberId>)
    requires WellLinked(fs) && f < |fs|
    ensures |s| >= 1 && s[0] == f
    ensures forall k | 0 <= k < |s| :: s[k] < |fs|
    decreases |fs| - f
  {
    assert LinkOk(fs, f);
    [f] + if fs[f].child.Some? then LeftSpine(fs, fs[f].child.value) else []
  }

  /** The node a deletion removes: f's own node, else the first one down the child chain. */
  function DeletionTarget(fs: seq<Fiber>, f: FiberId): Option<NodeId>
    requires WellLinked(fs) && f < |fs|
    decreases |fs| - f
  {
    assert LinkOk(fs, f);
    if fs[f].dom.Some? then fs[f].dom
    else if fs[f].child.Some? then DeletionTarget(fs, fs[f].child.value)
    else None
  }

  /**
   * The removed node is that of the first fiber of the left spine that has
   * one; when no fiber of the spine has a node, nothing can be removed.
   */
  lemma {:induction false} DeletionTargetIsFirstOnSpine(fs: seq<Fiber>, f: FiberId)
    requires WellLinked(fs) && f < |fs|
    ensures DeletionTarget(fs, f).None? ==> forall k | 0 <= k < |LeftSpine(fs, f)| :: fs[LeftSpine(fs, f)[k]].dom.None?
    ensures DeletionTarget(fs, f).Some? ==>
              exists k :: FirstWithDom(fs, LeftSpine(fs, f), k) && fs[LeftSpine(fs, f)[k]].dom == DeletionTarget(fs, f)
    decreases |fs| - f
  {
    assert LinkOk(fs, f);
    var s := LeftSpine(fs, f);
    if fs[f].dom.Some? {
      assert FirstWithDom(fs, s, 0);
    } else if fs[f].child.Some? {
      var c := fs[f].child.value;
      DeletionTargetIsFirstOnSpine(fs, c);
      var t := LeftSpine(fs, c);
      assert s == [f] + t;
      if DeletionTarget(fs, c).Some? {
        var k :| FirstWithDom(fs, t, k) && fs[t[k]].dom == DeletionTarget(fs, c);
        forall j | 0 <= j < k + 1 ensures fs[s[j]].dom.None? {
          if j > 0 { assert s[j] == t[j - 1]; }
        }
        assert FirstWithDom(fs, s, k + 1);
      } else {
        forall j | 0 <= j < |s| ensures fs[s[j]].dom.None? {
          if j > 0 { assert s[j] == t[j - 1]; }
        }
      }
    }
  }

  /** commitDeletion: one removal, or the TypeError when the child chain ends without a node. */
  function DeletionOutcome(fs: seq<Fiber>, f: FiberId, domParent: NodeId): Outcome
    requires WellLinked(fs) && f < |fs|
  {
    match DeletionTarget(fs, f)
    case Some(n) => Outcome([RemoveChild(domParent, n)], true)
    case None => Outcome([], false)
  }

  /** What commitWork does for f itself, by its effect tag. */
  function OwnOps(fs: seq<Fiber>, f: FiberId): Outcome
    requires WellLinked(fs) && f < |fs| && fs[f].parent.Some?
  {
    assert LinkOk(fs, f);
    var fiber := fs[f];
    if fiber.effectTag == Some(Placement) && fiber.dom.Some? then
      Outcome([AppendChild(ParentNode(fs, f), fiber.dom.value)], true)
    else if fiber.effectTag == Some(Update) && fiber.dom.Some? then
      Outcome([UpdateNode(fiber.dom.value, fs[fiber.alternate.value].props.fields, fiber.props.fields)], true)
    else if fiber.effectTag == Some(Deletion) then
      DeletionOutcome(fs, f, ParentNode(fs, f))
    else
      Outcome([], true)
  }

  /** Runs a second step only when the first completed. */
  function Then(a: Outcome, b: Outcome): Outcome
  {
    if a.completed then Outcome(a.ops + b.ops, b.completed) else a
  }

  /** commitWork(f): f's own operations, then its child's walk, then its sibling's walk. */
  function WorkOps(fs: seq<Fiber>, f: Option<FiberId>): Outcome
    requires WellLinked(fs) && (f.Some? ==> f.value < |fs| && fs[f.value].parent.Some?)
    decreases if f.Some? then |fs| - f.value else 0
  {
    if f.None? then Outcome([], true)
    else
      var x := f.value;
      assert LinkOk(fs, x);
      Then(Then(OwnOps(fs, x), WorkOps(fs, fs[x].child)), WorkOps(fs, fs[x].sibling))
  }

  /** One step of commitWork: f's own operations, then the walks from its child and from its sibling, both further on. */
  lemma WorkOpsStep(fs: seq<Fiber>, f: FiberId)
    requires WellLinked(fs) && f < |fs| && fs[f].parent.Some?
    ensures fs[f].child.Some? ==> f < fs[f].child.value < |fs| && fs[fs[f].child.value].parent.Some?
    ensures fs[f].sibling.Some? ==> f < fs[f].sibling.value < |fs| && fs[fs[f].sibling.value].parent.Some?
    ensures WorkOps(fs, Some(f)) == Then(Then(OwnOps(fs, f), WorkOps(fs, fs[f].child)), WorkOps(fs, fs[f].sibling))
  {
    assert LinkOk(fs, f);
  }

  /** Then is associative: the grouping of three consecutive steps does not matter. */
  lemma ThenAssoc(a: Outcome, b: Outcome, c: Outcome)
    ensures Then(Then(a, b), c) == Then(a, Then(b, c))
  {
    if a.completed && b.completed {
      assert a.ops + b.ops + c.ops == a.ops + (b.ops + c.ops);
    }
  }

  /**
   * The fibers' own operations, one fiber after the other in the given
   * order, stopping at the first that fails: a flat reference for the walk.
   */
  function InOrder(fs: seq<Fiber>, o: seq<FiberId>): Outcome
    requires WellLinked(fs) && Committable(fs, o)
  {
    if o == [] then Outcome([], true) else Then(OwnOps(fs, o[0]), InOrder(fs, o[1..]))
  }

  /** Running two orders one after the other is running their concatenation. */
  lemma {:induction false} InOrderConcat(fs: seq<Fiber>, a: seq<FiberId>, b: seq<FiberId>)
    requires WellLinked(fs) && Committable(fs, a) && Committable(fs, b)
    ensures Committable(fs, a + b)
    ensures InOrder(fs, a + b) == Then(InOrder(fs, a), InOrder(fs, b))
    decreases |a|
  {
    assert forall i | 0 <= i < |a + b| :: (a + b)[i] == if i < |a| then a[i] else b[i - |a|];
    if a == [] {
      assert a + b == b;
      assert Then(Outcome([], true), InOrder(fs, b)).ops == [] + InOrder(fs, b).ops;
    } else {
      assert (a + b)[1..] == a[1..] + b;
      InOrderConcat(fs, a[1..], b);
      ThenAssoc(OwnOps(fs, a[0]), InOrder(fs, a[1..]), InOrder(fs, b));
    }
  }

  /** Every fiber of the pre-order from a fiber that has a parent has a parent too. */
  lemma {:induction false} OrderCommittable(fs: seq<Fiber>, f: FiberId)
    requires WellLinked(fs) && f < |fs| && fs[f].parent.Some?
    ensures Committable(fs, Order(fs, f))
    decreases |fs| - f
  {
    assert LinkOk(fs, f);
    var c := if fs[f].child.Some? then Order(fs, fs[f].child.value) else [];
    var s := if fs[f].sibling.Some? then Order(fs, fs[f].sibling.value) else [];
    if fs[f].child.Some? {
      OrderCommittable(fs, fs[f].child.value);
    }
    if fs[f].sibling.Some? {
      OrderCommittable(fs, fs[f].sibling.value);
    }
    var o := [f] + c + s;
    assert Order(fs, f) == o;
    forall i | 0 <= i < |o| ensures o[i] < |fs| && fs[o[i]].parent.Some? {
      if 0 < i <= |c| {
        assert o[i] == c[i - 1];
      } else if |c| < i {
        assert o[i] == s[i - 1 - |c|];
      }
    }
  }

  /**
   * commitWork(f) visits f's subtree and the subtrees of its later siblings
   * in pre-order: its operations are each visited fiber's own operations, in
   * that order, up to the first failing deletion.
   */
  lemma {:induction false} WorkOpsFollowsOrder(fs: seq<Fiber>, f: FiberId)
    requires WellLinked(fs) && f < |fs| && fs[f].parent.Some?
    ensures Committable(fs, Order(fs, f))
    ensures WorkOps(fs, Some(f)) == InOrder(fs, Order(fs, f))
    decreases |fs| - f
  {
    assert LinkOk(fs, f);
    OrderCommittable(fs, f);
    var c := if fs[f].child.Some? then Order(fs, fs[f].child.value) else [];
    var s := if fs[f].sibling.Some? then Order(fs, fs[f].sibling.value) else [];
    assert Order(fs, f) == [f] + (c + s);
    if fs[f].child.Some? {
      WorkOpsFollowsOrder(fs, fs[f].child.value);
    } else {
      assert InOrder(fs, c) == WorkOps(fs, fs[f].child);
    }
    if fs[f].sibling.Some? {
      WorkOpsFollowsOrder(fs, fs[f].sibling.value);
    } else {
      assert InOrder(fs, s) == WorkOps(fs, fs[f].sibling);
    }
    InOrderConcat(fs, c, s);
    assert ([f] + (c + s))[1..] == c + s;
    ThenAssoc(OwnOps(fs, f), InOrder(fs, c), InOrder(fs, s));
  }

  /** A walk in order completes iff every fiber's own step does. */
  lemma {:induction false} InOrderCompletes(fs: seq<Fiber>, o: seq<FiberId>)
    requires WellLinked(fs) && Committable(fs, o)
    ensures InOrder(fs, o).completed <==> forall k | 0 <= k < |o| :: OwnOps(fs, o[k]).completed
  {
    if o != [] {
      InOrderCompletes(fs, o[1..]);
      assert forall k | 1 <= k < |o| :: o[k] == o[1..][k - 1];
    }
  }

  /**
   * A walk in order whose first failing fiber is at position k issues the
   * operations of the fibers before k, completed, then k's own, and stops.
   */
  lemma {:induction false} InOrderStopsAtFirstFailure(fs: seq<Fiber>, o: seq<FiberId>, k: nat)
    requires WellLinked(fs) && Committable(fs, o) && k < |o|
    requires !OwnOps(fs, o[k]).completed && forall j | 0 <= j < k :: OwnOps(fs, o[j]).completed
    ensures Committable(fs, o[..k])
    ensures InOrder(fs, o[..k]).completed && !InOrder(fs, o).completed
    ensures InOrder(fs, o).ops == InOrder(fs, o[..k]).ops + OwnOps(fs, o[k]).ops
    decreases k
  {
    if k == 0 {
      assert o[..k] == [];
    } else {
      assert o[1..][..k - 1] == o[..k][1..];
      assert forall j | 0 <= j < k - 1 :: o[1..][j] == o[j + 1];
      InOrderStopsAtFirstFailure(fs, o[1..], k - 1);
    }
  }

  /** Issuing the operations of a then those of b, once a has completed, is issuing those of Then(a, b). */
  lemma ThenIssues(log: seq<HostOp>, a: Outcome, b: Outcome)
    requires a.completed
    ensures log + a.ops + b.ops == log + Then(a, b).ops && Then(a, b).completed == b.completed
  {
  }

  /** Fibers that can be handed to commitWork: all have a parent. */
  predicate Committable(fs: seq<Fiber>, dels: seq<FiberId>)
  {
    forall i | 0 <= i < |dels| :: dels[i] < |fs| && fs[dels[i]].parent.Some?
  }

  /** `deletions.forEach(commitWork)` as written: each deleted fiber's whole walk, stopping at a failure. */
  function DeletionsOps(fs: seq<Fiber>, dels: seq<FiberId>): Outcome
    requires WellLinked(fs) && Committable(fs, dels)
  {
    if dels == [] then Outcome([], true)
    else Then(WorkOps(fs, Some(dels[0])), DeletionsOps(fs, dels[1..]))
  }

  /** The deletion pass with only the deleted fibers' own nodes removed, in list order, stopping at a failure. */
  function FixedDeletionsOps(fs: seq<Fiber>, dels: seq<FiberId>): Outcome
    requires WellLinked(fs) && Committable(fs, dels)
  {
    if dels == [] then Outcome([], true)
    else
      var last := dels[|dels| - 1];
      Then(FixedDeletionsOps(fs, dels[..|dels| - 1]), DeletionOutcome(fs, last, ParentNode(fs, last)))
  }

  /**
   * Two adjacent children deleted together, e.g. a list of two items
   * rendered again as an empty list: the deletion pass as written removes
   * the second node twice, once as the first fiber's sibling and once as its
   * own entry of the list.
   */
  lemma AdjacentDeletionsRemoveTwice(fs: seq<Fiber>, a: FiberId, b: FiberId)
    requires WellLinked(fs) && a < |fs| && fs[a].parent.Some?
    requires fs[a].sibling == Some(b) && b < |fs|
    requires fs[a].effectTag == Some(Deletion) && fs[b].effectTag == Some(Deletion)
    requires fs[a].dom.Some? && fs[b].dom.Some? && fs[a].child.None? && fs[b].child.None? && fs[b].sibling.None?
    ensures Committable(fs, [a, b])
    ensures DeletionsOps(fs, [a, b])
            == Outcome([RemoveChild(ParentNode(fs, a), fs[a].dom.value),
                        RemoveChild(ParentNode(fs, a), fs[b].dom.value),
                        RemoveChild(ParentNode(fs, a), fs[b].dom.value)], true)
  {
    assert LinkOk(fs, a);
    SiblingsShareParentNode(fs, a, b);
    var ra, rb := RemoveChild(ParentNode(fs, a), fs[a].dom.value), RemoveChild(ParentNode(fs, a), fs[b].dom.value);
    LastLeafDeletionWork(fs, b);
    LeafDeletionWork(fs, a);
    assert [ra] + [rb] == [ra, rb];
    TwoDeletions(fs, a, b);
  }

  /** The pass as written over a list of two fibers: the first one's walk, then the second one's. */
  lemma TwoDeletions(fs: seq<Fiber>, a: FiberId, b: FiberId)
    requires WellLinked(fs) && a < |fs| && b < |fs| && fs[a].parent.Some? && fs[b].parent.Some?
    ensures Committable(fs, [a, b])
    ensures DeletionsOps(fs, [a, b]) == Then(WorkOps(fs, Some(a)), WorkOps(fs, Some(b)))
  {
    assert [b][1..] == [];
    assert [a, b][1..] == [b];
    assert DeletionsOps(fs, [b]) == Then(WorkOps(fs, Some(b)), Outcome([], true));
  }

  /** Two fibers with the same parent have the same host parent node. */
  lemma SiblingsShareParentNode(fs: seq<Fiber>, a: FiberId, b: FiberId)
    requires WellLinked(fs) && a < |fs| && b < |fs| && fs[a].parent.Some? && fs[b].parent == fs[a].parent
    ensures ParentNode(fs, b) == ParentNode(fs, a)
  {
    assert LinkOk(fs, a);
    assert LinkOk(fs, b);
  }

  /** commitWork on a deleted leaf with a node: the removal, then the sibling's walk. */
  lemma LeafDeletionWork(fs: seq<Fiber>, x: FiberId)
    requires WellLinked(fs) && x < |fs| && fs[x].parent.Some?
    requires fs[x].effectTag == Some(Deletion) && fs[x].dom.Some? && fs[x].child.None?
    ensures OwnOps(fs, x) == Outcome([RemoveChild(ParentNode(fs, x), fs[x].dom.value)], true)
    ensures assert LinkOk(fs, x); WorkOps(fs, Some(x)) == Then(OwnOps(fs, x), WorkOps(fs, fs[x].sibling))
  {
    assert LinkOk(fs, x);
    assert DeletionTarget(fs, x) == fs[x].dom;
    var own := OwnOps(fs, x);
    assert own == DeletionOutcome(fs, x, ParentNode(fs, x));
    assert own.ops + [] == own.ops;
    assert Then(own, WorkOps(fs, None)) == own;
  }

  /** commitWork on a deleted leaf with a node and no sibling: just the removal. */
  lemma LastLeafDeletionWork(fs: seq<Fiber>, x: FiberId)
    requires WellLinked(fs) && x < |fs| && fs[x].parent.Some?
    requires fs[x].effectTag == Some(Deletion) && fs[x].dom.Some? && fs[x].child.None? && fs[x].sibling.None?
    ensures WorkOps(fs, Some(x)) == Outcome([RemoveChild(ParentNode(fs, x), fs[x].dom.value)], true)
  {
    LeafDeletionWork(fs, x);
    assert WorkOps(fs, None) == Outcome([], true);
  }

  /** The removal the corrected pass issues for queued fiber d. */
  function Removal(fs: seq<Fiber>, d: FiberId): HostOp
    requires WellLinked(fs) && d < |fs| && fs[d].parent.Some? && DeletionTarget(fs, d).Some?
  {
    RemoveChild(ParentNode(fs, d), DeletionTarget(fs, d).value)
  }

  /**
   * The corrected deletion pass removes, in list order, exactly the node of
   * each queued fiber, once, and completes, provided every queued fiber has
   * a node on its left spine.
   */
  lemma {:induction false} FixedDeletionsRemoveEachOnce(fs: seq<Fiber>, dels: seq<FiberId>)
    requires WellLinked(fs) && Committable(fs, dels)
    requires forall i | 0 <= i < |dels| :: DeletionTarget(fs, dels[i]).Some?
    ensures FixedDeletionsOps(fs, dels).completed
    ensures FixedDeletionsOps(fs, dels).ops == seq(|dels|, i requires 0 <= i < |dels| => Removal(fs, dels[i]))
  {
    if dels != [] {
      var init := dels[..|dels| - 1];
      FixedDeletionsRemoveEachOnce(fs, init);
      var want := seq(|dels|, i requires 0 <= i < |dels| => Removal(fs, dels[i]));
      assert want == seq(|init|, i requires 0 <= i < |init| => Removal(fs, init[i])) + [Removal(fs, dels[|dels| - 1])];
    }
  }

  /**
   * A pass whose first failure is at position i issues exactly the removals
   * of the fibers before i, then stops without completing.
   */
  lemma {:induction false} FixedDeletionsStopAtFirstFailure(fs: seq<Fiber>, dels: seq<FiberId>, i: nat)
    requires WellLinked(fs) && Committable(fs, dels)
    requires i < |dels| && DeletionTarget(fs, dels[i]).None?
    requires forall j | 0 <= j < i :: DeletionTarget(fs, dels[j]).Some?
    ensures !FixedDeletionsOps(fs, dels).completed
    ensures FixedDeletionsOps(fs, dels).ops == seq(i, j requires 0 <= j < i => Removal(fs, dels[j]))
  {
    var init := dels[..|dels| - 1];
    if |dels| == i + 1 {
      FixedDeletionsRemoveEachOnce(fs, init);
      assert seq(i, j requires 0 <= j < i => Removal(fs, dels[j])) == seq(|init|, j requires 0 <= j < |init| => Removal(fs, init[j]));
    } else {
      FixedDeletionsStopAtFirstFailure(fs, init, i);
      assert seq(i, j requires 0 <= j < i => Removal(fs, dels[j])) == seq(i, j requires 0 <= j < i => Removal(fs, init[j]));
    }
  }

  /** Once a prefix of the pass has failed, the rest of the list changes nothing. */
  lemma {:induction false} FixedDeletionsFailureSticks(fs: seq<Fiber>, dels: seq<FiberId>, i: nat)
    requires WellLinked(fs) && Committable(fs, dels) && i <= |dels|
    requires !FixedDeletionsOps(fs, dels[..i]).completed
    ensures FixedDeletionsOps(fs, dels) == FixedDeletionsOps(fs, dels[..i])
    decreases |dels|
  {
    if |dels| == i {
      assert dels[..i] == dels;
    } else {
      var init := dels[..|dels| - 1];
      assert init[..i] == dels[..i];
      FixedDeletionsFailureSticks(fs, init, i);
    }
  }

  /**
   * commitRoot with the corrected deletion pass: the queued fibers' nodes
   * are removed, then the new tree under the root is committed.
   */
  function CommitOps(fs: seq<Fiber>, dels: seq<FiberId>, root: FiberId): Outcome
    requires WellLinked(fs) && Committable(fs, dels) && root < |fs|
  {
    assert LinkOk(fs, root);
    Then(FixedDeletionsOps(fs, dels), WorkOps(fs, fs[root].child))
  }

  /**
   * Every removal comes first: when each queued fiber has a node to remove,
   * a commit begins with exactly those removals, in list order, followed by
   * the operations of the new tree's walk.
   */
  lemma CommitRemovesFirst(fs: seq<Fiber>, dels: seq<FiberId>, root: FiberId)
    requires WellLinked(fs) && Committable(fs, dels) && root < |fs|
    requires forall i | 0 <= i < |dels| :: DeletionTarget(fs, dels[i]).Some?
    ensures assert LinkOk(fs, root);
            CommitOps(fs, dels, root).ops
            == seq(|dels|, i requires 0 <= i < |dels| => Removal(fs, dels[i])) + WorkOps(fs, fs[root].child).ops
    ensures assert LinkOk(fs, root);
            CommitOps(fs, dels, root).completed == WorkOps(fs, fs[root].child).completed
  {
    FixedDeletionsRemoveEachOnce(fs, dels);
  }

  /** Removals and appends only happen in commit; the render phase only creates and fills new nodes. */
  predicate IsRenderOp(op: HostOp, firstNew: NodeId)
  {
    (op.CreateNode? || op.UpdateNode?) && op.node >= firstNew
  }

  /** `log` is `before` followed by render operations on nodes numbered from `firstNew` on. */
  predicate RenderExtends(log: seq<HostOp>, before: seq<HostOp>, firstNew: NodeId)
  {
    |before| <= |log| && log[..|before|] == before
    && forall k | |before| <= k < |log| :: IsRenderOp(log[k], firstNew)
  }

  lemma RenderExtendsTrans(l0: seq<HostOp>, l1: seq<HostOp>, l2: seq<HostOp>, n0: NodeId, n1: NodeId)
    requires RenderExtends(l1, l0, n0) && RenderExtends(l2, l1, n1) && n0 <= n1
    ensures RenderExtends(l2, l0, n0)
  {
    assert l2[..|l0|] == l2[..|l1|][..|l0|];
  }
}

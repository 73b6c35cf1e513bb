/**
 * The fiber graph (src/myReact/types.ts) held in an arena: a fiber is named by
 * its index, and `parent`, `child`, `sibling` and `alternate` are indices.
 * This module also holds the read-only walks over the graph that the
 * reconciler and the committer perform: the next unit of work
 * (src/myReact/reconciler.ts) and the nearest host-bearing ancestor
 * (src/myReact/scheduler.ts).
 */
module FiberTree {
  import opened Optional
  import opened Elements

  type FiberId = nat
  type NodeId = nat
  type HookId = nat

  datatype EffectTag = Placement | Update | Deletion

  /**
   * One fiber. `ftype` is None only for a root, which the source builds
   * without a type; `hooks` holds ids of state hooks (empty on host fibers).
   */
  datatype Fiber = Fiber(
    ftype: Option<ElementType>,
    props: Props,
    dom: Option<NodeId>,
    parent: Option<FiberId>,
    child: Option<FiberId>,
    sibling: Option<FiberId>,
    alternate: Option<FiberId>,
    effectTag: Option<EffectTag>,
    hooks: seq<HookId>)

  predicate IsComponent(f: Fiber)
  {
    f.ftype.Some? && f.ftype.value.Component?
  }

  /**
   * The links of fiber i are consistent: a parent is older, a child and a
   * sibling are younger, a child points back to i, a sibling shares i's
   * parent, a root (no parent) has no type, no sibling and a host node, and an
   * UPDATE fiber has an alternate, which is older.
   */
  predicate LinkOk(fs: seq<Fiber>, i: nat)
    requires i < |fs|
  {
    var f := fs[i];
    && (f.parent.Some? ==> f.parent.value < i)
    && (f.child.Some? ==> i < f.child.value < |fs| && fs[f.child.value].parent == Some(i))
    && (f.sibling.Some? ==> i < f.sibling.value < |fs| && fs[f.sibling.value].parent == f.parent)
    && (f.alternate.Some? ==> f.alternate.value < i)
    && (f.parent.None? <==> f.ftype.None?)
    && (f.parent.None? ==> f.dom.Some? && f.sibling.None?)
    && (f.effectTag == Some(Update) ==> f.alternate.Some?)
  }

  predicate WellLinked(fs: seq<Fiber>)
  {
    forall i | 0 <= i < |fs| :: LinkOk(fs, i)
  }

  /** The first sibling found from f upwards through parents; None once the root is passed. */
  function UpSibling(fs: seq<Fiber>, f: FiberId): Option<FiberId>
    requires WellLinked(fs) && f < |fs|
    decreases f
  {
    assert LinkOk(fs, f);
    if fs[f].sibling.Some? then fs[f].sibling
    else if fs[f].parent.Some? then UpSibling(fs, fs[f].parent.value)
    else None
  }

  /** The next unit of work after f: its child, else the nearest sibling up the parent chain. */
  function Successor(fs: seq<Fiber>, f: FiberId): Option<FiberId>
    requires WellLinked(fs) && f < |fs|
  {
    if fs[f].child.Some? then fs[f].child else UpSibling(fs, f)
  }

  /** Where the walk resumes once the subtrees of f and of all its later siblings are done. */
  function AfterForest(fs: seq<Fiber>, f: FiberId): Option<FiberId>
    requires WellLinked(fs) && f < |fs|
  {
    assert LinkOk(fs, f);
    if fs[f].parent.Some? then UpSibling(fs, fs[f].parent.value) else None
  }

  /**
   * Pre-order depth-first order of f's subtree followed by the subtrees of
   * its later siblings: the reference definition of the traversal.
   */
  function Order(fs: seq<Fiber>, f: FiberId): (o: seq<FiberId>)
    requires WellLinked(fs) && f < |fs|
    ensures |o| >= 1 && o[0] == f
    ensures forall k | 0 <= k < |o| :: o[k] < |fs|
    decreases |fs| - f
  {
    assert LinkOk(fs, f);
    [f]
    + (if fs[f].child.Some? then Order(fs, fs[f].child.value) else [])
    + (if fs[f].sibling.Some? then Order(fs, fs[f].sibling.value) else [])
  }

  /**
   * The successor function enumerates Order: each fiber is followed by the
   * next one in pre-order, and the last is followed by the place where the
   * walk resumes above f.
   */
  lemma {:induction false} SuccessorFollowsOrder(fs: seq<Fiber>, f: FiberId)
    requires WellLinked(fs) && f < |fs|
    ensures var o := Order(fs, f);
            && (forall k | 0 <= k < |o| - 1 :: Successor(fs, o[k]) == Some(o[k + 1]))
            && Successor(fs, o[|o| - 1]) == AfterForest(fs, f)
    decreases |fs| - f
  {
    assert LinkOk(fs, f);
    var c := if fs[f].child.Some? then Order(fs, fs[f].child.value) else [];
    var s := if fs[f].sibling.Some? then Order(fs, fs[f].sibling.value) else [];
    assert Order(fs, f) == [f] + c + s;
    if fs[f].child.Some? {
      SuccessorFollowsOrder(fs, fs[f].child.value);
      assert LinkOk(fs, fs[f].child.value);
    }
    if fs[f].sibling.Some? {
      SuccessorFollowsOrder(fs, fs[f].sibling.value);
      assert LinkOk(fs, fs[f].sibling.value);
    }
    JoinWalks(fs, f, c, s);
  }

  /** Gluing step of SuccessorFollowsOrder: f, then the child's forest, then the sibling's forest. */
  lemma JoinWalks(fs: seq<Fiber>, f: FiberId, c: seq<FiberId>, s: seq<FiberId>)
    requires WellLinked(fs) && f < |fs|
    requires (forall k | 0 <= k < |c| :: c[k] < |fs|) && (forall k | 0 <= k < |s| :: s[k] < |fs|)
    requires fs[f].child.Some? <==> c != []
    requires c != [] ==> c[0] == fs[f].child.value
    requires fs[f].sibling.Some? <==> s != []
    requires s != [] ==> s[0] == fs[f].sibling.value
    requires forall k | 0 <= k < |c| - 1 :: Successor(fs, c[k]) == Some(c[k + 1])
    requires c != [] ==> Successor(fs, c[|c| - 1]) == UpSibling(fs, f)
    requires forall k | 0 <= k < |s| - 1 :: Successor(fs, s[k]) == Some(s[k + 1])
    requires s != [] ==> Successor(fs, s[|s| - 1]) == AfterForest(fs, f)
    ensures var o := [f] + c + s;
            && (forall k | 0 <= k < |o| - 1 :: Successor(fs, o[k]) == Some(o[k + 1]))
            && Successor(fs, o[|o| - 1]) == AfterForest(fs, f)
  {
    var o := [f] + c + s;
    forall k | 0 <= k < |o| - 1
      ensures Successor(fs, o[k]) == Some(o[k + 1])
    {
      if k == 0 {
        assert o[1] == if c != [] then c[0] else s[0];
      } else if k < |c| {
        assert o[k] == c[k - 1] && o[k + 1] == c[k];
      } else if k == |c| {
        assert o[k] == c[|c| - 1] && o[k + 1] == s[0];
      } else {
        assert o[k] == s[k - 1 - |c|] && o[k + 1] == s[k - |c|];
      }
    }
    if s == [] && c == [] {
      assert o[|o| - 1] == f;
    } else if s == [] {
      assert o[|o| - 1] == c[|c| - 1];
    } else {
      assert o[|o| - 1] == s[|s| - 1];
    }
  }

  /** From a root, the walk visits the whole tree in pre-order and then stops. */
  lemma RootWalkEnds(fs: seq<Fiber>, root: FiberId)
    requires WellLinked(fs) && root < |fs| && fs[root].parent.None?
    ensures var o := Order(fs, root);
            && (forall k | 0 <= k < |o| - 1 :: Successor(fs, o[k]) == Some(o[k + 1]))
            && Successor(fs, o[|o| - 1]) == None
  {
    SuccessorFollowsOrder(fs, root);
  }

  /**
   * The loop of performUnitOfWork that finds the next unit: the child if
   * there is one, else walk up until a fiber with a sibling is found.
   */
  method FindNextUnit(fs: seq<Fiber>, f: FiberId) returns (next: Option<FiberId>)
    requires WellLinked(fs) && f < |fs|
    ensures next == Successor(fs, f)
    ensures fs[f].child.Some? ==> next == fs[f].child
    ensures next.Some? ==> next.value < |fs|
  {
    assert LinkOk(fs, f);
    if fs[f].child.Some? {
      return fs[f].child;
    }
    var nextFiber: Option<FiberId> := Some(f);
    while nextFiber.Some?
      invariant nextFiber.Some? ==> nextFiber.value < |fs| && UpSibling(fs, nextFiber.value) == UpSibling(fs, f)
      invariant nextFiber.None? ==> UpSibling(fs, f) == None
      decreases if nextFiber.Some? then nextFiber.value + 1 else 0
    {
      assert LinkOk(fs, nextFiber.value);
      if fs[nextFiber.value].sibling.Some? {
        return fs[nextFiber.value].sibling;
      }
      nextFiber := fs[nextFiber.value].parent;
    }
    return None;
  }

  /** The siblings chain that starts at `start`: a parent's children, first child first. */
  function Chain(fs: seq<Fiber>, start: Option<FiberId>): (c: seq<FiberId>)
    requires WellLinked(fs) && (start.Some? ==> start.value < |fs|)
    ensures forall k | 0 <= k < |c| :: c[k] < |fs|
    decreases if start.Some? then |fs| - start.value else 0
  {
    if start.None? then [] else assert LinkOk(fs, start.value); [start.value] + Chain(fs, fs[start.value].sibling)
  }

  /** Fibers a, a + 1, ..., b - 1, each the sibling of the one before, form the chain from a. */
  lemma {:induction false} RunChain(fs: seq<Fiber>, a: FiberId, b: FiberId)
    requires WellLinked(fs) && a < b <= |fs|
    requires forall j | a <= j < b :: fs[j].sibling == if j + 1 < b then Some(j + 1) else None
    ensures Chain(fs, Some(a)) == seq(b - a, i => a + i)
    decreases b - a
  {
    assert LinkOk(fs, a);
    if a + 1 < b {
      RunChain(fs, a + 1, b);
      assert seq(b - a, i => a + i) == [a] + seq(b - a - 1, i => a + 1 + i);
    }
  }

  /** Strictly increasing ids. */
  ghost predicate Increasing(c: seq<FiberId>) {
    forall i, j | 0 <= i < j < |c| :: c[i] < c[j]
  }

  /** Each member's sibling is the next member, and the last has none. */
  ghost predicate SiblingLinked(fs: seq<Fiber>, c: seq<FiberId>)
  {
    && (forall i | 0 <= i < |c| :: c[i] < |fs|)
    && (forall i | 0 <= i < |c| - 1 :: fs[c[i]].sibling == Some(c[i + 1]))
    && (c != [] ==> fs[c[|c| - 1]].sibling.None?)
  }

  /** All members share the first member's parent. */
  ghost predicate SameParent(fs: seq<Fiber>, c: seq<FiberId>)
  {
    forall i | 0 <= i < |c| :: c[i] < |fs| && c[0] < |fs| && fs[c[i]].parent == fs[c[0]].parent
  }

  /**
   * A chain is strictly increasing, each member's sibling is the next member
   * (None for the last), and all members share the first member's parent.
   */
  lemma ChainShape(fs: seq<Fiber>, start: Option<FiberId>)
    requires WellLinked(fs) && (start.Some? ==> start.value < |fs|)
    ensures Increasing(Chain(fs, start))
    ensures SiblingLinked(fs, Chain(fs, start))
    ensures SameParent(fs, Chain(fs, start))
    ensures Chain(fs, start) == [] <==> start.None?
    ensures start.Some? ==> Chain(fs, start)[0] == start.value
  {
    ChainIncreasing(fs, start);
    ChainSiblingLinked(fs, start);
    ChainSameParent(fs, start);
  }

  lemma {:induction false} ChainIncreasing(fs: seq<Fiber>, start: Option<FiberId>)
    requires WellLinked(fs) && (start.Some? ==> start.value < |fs|)
    ensures Increasing(Chain(fs, start))
    ensures start.Some? ==> forall k | 0 <= k < |Chain(fs, start)| :: start.value <= Chain(fs, start)[k]
    decreases if start.Some? then |fs| - start.value else 0
  {
    if start.Some? {
      var x := start.value;
      assert LinkOk(fs, x);
      var c := Chain(fs, start);
      var rest := Chain(fs, fs[x].sibling);
      ChainIncreasing(fs, fs[x].sibling);
      assert c == [x] + rest;
      forall i, j | 0 <= i < j < |c| ensures c[i] < c[j] {
        assert c[j] == rest[j - 1];
        if i > 0 {
          assert c[i] == rest[i - 1];
        }
      }
    }
  }

  lemma {:induction false} ChainSiblingLinked(fs: seq<Fiber>, start: Option<FiberId>)
    requires WellLinked(fs) && (start.Some? ==> start.value < |fs|)
    ensures SiblingLinked(fs, Chain(fs, start))
    ensures Chain(fs, start) == [] <==> start.None?
    ensures start.Some? ==> Chain(fs, start)[0] == start.value
    decreases if start.Some? then |fs| - start.value else 0
  {
    if start.Some? {
      var x := start.value;
      assert LinkOk(fs, x);
      var c := Chain(fs, start);
      var rest := Chain(fs, fs[x].sibling);
      ChainSiblingLinked(fs, fs[x].sibling);
      assert c == [x] + rest;
      forall i | 0 <= i < |c| - 1 ensures fs[c[i]].sibling == Some(c[i + 1]) {
        if i > 0 {
          assert c[i] == rest[i - 1] && c[i + 1] == rest[i];
        } else {
          assert c[1] == rest[0];
        }
      }
      if rest != [] {
        assert c[|c| - 1] == rest[|rest| - 1];
      }
    }
  }

  lemma {:induction false} ChainSameParent(fs: seq<Fiber>, start: Option<FiberId>)
    requires WellLinked(fs) && (start.Some? ==> start.value < |fs|)
    ensures SameParent(fs, Chain(fs, start))
    decreases if start.Some? then |fs| - start.value else 0
  {
    if start.Some? {
      var x := start.value;
      assert LinkOk(fs, x);
      var c := Chain(fs, start);
      var rest := Chain(fs, fs[x].sibling);
      ChainSameParent(fs, fs[x].sibling);
      assert c == [x] + rest;
      forall i | 0 <= i < |c| ensures fs[c[i]].parent == fs[c[0]].parent {
        if i > 0 {
          assert c[i] == rest[i - 1];
          assert LinkOk(fs, rest[0]);
        }
      }
    }
  }

  /** The children of p: every one of them has p as its parent. */
  lemma ChildrenHaveParent(fs: seq<Fiber>, p: FiberId)
    requires WellLinked(fs) && p < |fs|
    ensures assert LinkOk(fs, p); forall k | 0 <= k < |Chain(fs, fs[p].child)| :: fs[Chain(fs, fs[p].child)[k]].parent == Some(p)
  {
    assert LinkOk(fs, p);
    ChainShape(fs, fs[p].child);
  }

  /** The nearest proper ancestor of f that owns a host node. */
  function DomParent(fs: seq<Fiber>, f: FiberId): (p: FiberId)
    requires WellLinked(fs) && f < |fs| && fs[f].parent.Some?
    ensures p < f && fs[p].dom.Some?
    decreases f
  {
    assert LinkOk(fs, f);
    var q := fs[f].parent.value;
    assert LinkOk(fs, q);
    if fs[q].dom.Some? then q else DomParent(fs, q)
  }

  /** The proper ancestors of f, nearest first. */
  function Ancestors(fs: seq<Fiber>, f: FiberId): (a: seq<FiberId>)
    requires WellLinked(fs) && f < |fs|
    ensures forall k | 0 <= k < |a| :: a[k] < f
    decreases f
  {
    assert LinkOk(fs, f);
    if fs[f].parent.None? then [] else [fs[f].parent.value] + Ancestors(fs, fs[f].parent.value)
  }

  /** Position k of the ancestor list is the first one that owns a host node. */
  ghost predicate FirstWithDom(fs: seq<Fiber>, a: seq<FiberId>, k: int)
    requires forall i | 0 <= i < |a| :: a[i] < |fs|
  {
    0 <= k < |a| && fs[a[k]].dom.Some? && forall j | 0 <= j < k :: fs[a[j]].dom.None?
  }

  /**
   * DomParent is the first ancestor with a host node: it is one of the
   * ancestors, it has a node, and every nearer ancestor has none.
   */
  lemma {:induction false} DomParentIsNearest(fs: seq<Fiber>, f: FiberId)
    requires WellLinked(fs) && f < |fs| && fs[f].parent.Some?
    ensures exists k :: FirstWithDom(fs, Ancestors(fs, f), k) && Ancestors(fs, f)[k] == DomParent(fs, f)
    decreases f
  {
    assert LinkOk(fs, f);
    var q := fs[f].parent.value;
    assert LinkOk(fs, q);
    var a := Ancestors(fs, f);
    assert a[0] == q;
    if fs[q].dom.Some? {
      assert FirstWithDom(fs, a, 0) && a[0] == DomParent(fs, f);
    } else {
      DomParentIsNearest(fs, q);
      var b := Ancestors(fs, q);
      assert a == [q] + b;
      var k :| FirstWithDom(fs, b, k) && b[k] == DomParent(fs, q);
      forall j | 0 <= j < k + 1 ensures fs[a[j]].dom.None? {
        if j > 0 { assert a[j] == b[j - 1]; }
      }
      assert FirstWithDom(fs, a, k + 1) && a[k + 1] == DomParent(fs, f);
    }
  }

  /** commitWork's climb from f's parent to the first fiber that owns a host node. */
  method FindDomParent(fs: seq<Fiber>, f: FiberId) returns (p: FiberId)
    requires WellLinked(fs) && f < |fs| && fs[f].parent.Some?
    ensures p == DomParent(fs, f)
  {
    assert LinkOk(fs, f);
    p := fs[f].parent.value;
    assert LinkOk(fs, p);
    while fs[p].dom.None?
      invariant p < f
      invariant fs[p].dom.None? ==> fs[p].parent.Some?
      invariant DomParent(fs, f) == if fs[p].dom.Some? then p else DomParent(fs, p)
      decreases p
    {
      assert LinkOk(fs, p);
      p := fs[p].parent.value;
      assert LinkOk(fs, p);
    }
  }

  /** A fiber is a root: it has no parent. */
  predicate IsRoot(fs: seq<Fiber>, r: Option<FiberId>)
  {
    r.Some? ==> r.value < |fs| && fs[r.value].parent.None?
  }

  /** A new root appended to the arena (render, setState) keeps every link invariant. */
  lemma AppendRootWellLinked(fs: seq<Fiber>, root: Fiber)
    requires WellLinked(fs)
    requires root.parent.None? && root.ftype.None? && root.dom.Some?
    requires root.child.None? && root.sibling.None? && root.effectTag.None?
    requires root.alternate.Some? ==> root.alternate.value < |fs|
    ensures WellLinked(fs + [root])
  {
    var r := fs + [root];
    forall i | 0 <= i < |r| ensures LinkOk(r, i) {
      if i < |fs| {
        assert LinkOk(fs, i);
      }
    }
  }

  /** Replacing one fiber's hooks, props or node keeps every link invariant, as long as a node is not dropped. */
  lemma ReplaceContentWellLinked(fs: seq<Fiber>, w: FiberId, f: Fiber)
    requires WellLinked(fs) && w < |fs|
    requires f == fs[w].(hooks := f.hooks, props := f.props, dom := f.dom)
    requires fs[w].dom.Some? ==> f.dom.Some?
    ensures WellLinked(fs[w := f])
  {
    var r := fs[w := f];
    forall i | 0 <= i < |r| ensures LinkOk(r, i) {
      assert LinkOk(fs, i);
    }
  }
}

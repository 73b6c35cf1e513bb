/**
 * What reconcileChildren (src/myReact/reconciler.ts) does to the fiber arena,
 * stated as functions of the arena before the call: the old children are
 * matched with the new elements position by position, a matching type gives
 * an UPDATE fiber, an element without a match gives a PLACEMENT fiber, and
 * an old fiber without a match is tagged DELETION and queued for removal.
 *
 * New fibers are appended to the arena in element order, so the fiber made
 * for element k has id |fs| + k.
 */
module ReconcileSpec {
  import opened Optional
  import opened Elements
  import opened FiberTree

  /** The previous children of wip: the child chain of its alternate (none without an alternate). */
  function OldChildren(fs: seq<Fiber>, wip: FiberId): (oc: seq<FiberId>)
    requires WellLinked(fs) && wip < |fs|
    ensures forall k | 0 <= k < |oc| :: oc[k] < |fs|
  {
    assert LinkOk(fs, wip);
    if fs[wip].alternate.None? then []
    else
      var a := fs[wip].alternate.value;
      assert LinkOk(fs, a);
      Chain(fs, fs[a].child)
  }

  /** How many times the loop body runs: once per element or old child, whichever are more. */
  function Rounds(fs: seq<Fiber>, wip: FiberId, elements: seq<Element>): nat
    requires WellLinked(fs) && wip < |fs|
  {
    var n := |OldChildren(fs, wip)|;
    if |elements| < n then n else |elements|
  }

  /** Position k has both an old fiber and an element, and their types are equal. */
  predicate SameType(fs: seq<Fiber>, wip: FiberId, elements: seq<Element>, k: nat)
    requires WellLinked(fs) && wip < |fs|
  {
    var oc := OldChildren(fs, wip);
    k < |oc| && k < |elements| && fs[oc[k]].ftype == Some(elements[k].etype)
  }

  /** The fiber made for element k before it is linked to a sibling. */
  function Fresh(fs: seq<Fiber>, wip: FiberId, elements: seq<Element>, k: nat): Fiber
    requires WellLinked(fs) && wip < |fs| && k < |elements|
  {
    if SameType(fs, wip, elements, k) then
      var prev := OldChildren(fs, wip)[k];
      Fiber(fs[prev].ftype, elements[k].props, fs[prev].dom, Some(wip), None, None, Some(prev), Some(Update), [])
    else
      Fiber(Some(elements[k].etype), elements[k].props, None, Some(wip), None, None, None, Some(Placement), [])
  }

  /** The fiber for element k once linked: its sibling is the fiber of element k + 1, if any. */
  function Emitted(fs: seq<Fiber>, wip: FiberId, elements: seq<Element>, k: nat, linked: bool): Fiber
    requires WellLinked(fs) && wip < |fs| && k < |elements|
  {
    Fresh(fs, wip, elements, k).(sibling := if linked then Some(|fs| + k + 1) else None)
  }

  /** Old fibers tagged DELETION in the first n rounds, in old-chain order. */
  function UnmatchedUpTo(fs: seq<Fiber>, wip: FiberId, elements: seq<Element>, n: nat): seq<FiberId>
    requires WellLinked(fs) && wip < |fs|
  {
    if n == 0 then []
    else
      var oc := OldChildren(fs, wip);
      UnmatchedUpTo(fs, wip, elements, n - 1)
      + (if n - 1 < |oc| && !SameType(fs, wip, elements, n - 1) then [oc[n - 1]] else [])
  }

  /** Everything the call appends to the deletion list. */
  function Unmatched(fs: seq<Fiber>, wip: FiberId, elements: seq<Element>): seq<FiberId>
    requires WellLinked(fs) && wip < |fs|
  {
    UnmatchedUpTo(fs, wip, elements, Rounds(fs, wip, elements))
  }

  /**
   * Old fiber j after n rounds: tagged DELETION once it has been found
   * unmatched, and, for wip itself, its child pointer rewritten by round 0
   * (to the first new fiber, or to null when there are no elements).
   */
  function RetagAt(fs: seq<Fiber>, wip: FiberId, elements: seq<Element>, n: nat, j: FiberId): Fiber
    requires WellLinked(fs) && wip < |fs| && j < |fs|
  {
    var f := fs[j];
    var tagged := if j in UnmatchedUpTo(fs, wip, elements, n) then f.(effectTag := Some(Deletion)) else f;
    if j == wip && n > 0 then tagged.(child := if |elements| > 0 then Some(|fs|) else None) else tagged
  }

  function Min(a: nat, b: nat): nat
  {
    if a < b then a else b
  }

  /** The old fibers after n rounds of the loop. */
  function OldsAt(fs: seq<Fiber>, wip: FiberId, elements: seq<Element>, n: nat): (r: seq<Fiber>)
    requires WellLinked(fs) && wip < |fs|
    ensures |r| == |fs|
  {
    seq(|fs|, j requires 0 <= j < |fs| => RetagAt(fs, wip, elements, n, j))
  }

  /** The fibers made in the first n rounds of the loop; the last one has no sibling yet. */
  function MadeAt(fs: seq<Fiber>, wip: FiberId, elements: seq<Element>, n: nat): (r: seq<Fiber>)
    requires WellLinked(fs) && wip < |fs|
    ensures |r| == Min(n, |elements|)
  {
    var made := Min(n, |elements|);
    seq(made, k requires 0 <= k < made => Emitted(fs, wip, elements, k, k + 1 < made))
  }

  /** The arena after n rounds of the loop. */
  function Partial(fs: seq<Fiber>, wip: FiberId, elements: seq<Element>, n: nat): (r: seq<Fiber>)
    requires WellLinked(fs) && wip < |fs|
  {
    OldsAt(fs, wip, elements, n) + MadeAt(fs, wip, elements, n)
  }

  /** The arena after reconcileChildren(wip, elements). */
  function Reconciled(fs: seq<Fiber>, wip: FiberId, elements: seq<Element>): seq<Fiber>
    requires WellLinked(fs) && wip < |fs|
  {
    Partial(fs, wip, elements, Rounds(fs, wip, elements))
  }

  /** One more round adds at most the old child of that round to the list. */
  lemma UnmatchedUpToStep(fs: seq<Fiber>, wip: FiberId, elements: seq<Element>, n: nat)
    requires WellLinked(fs) && wip < |fs|
    ensures var oc := OldChildren(fs, wip);
            UnmatchedUpTo(fs, wip, elements, n + 1)
            == UnmatchedUpTo(fs, wip, elements, n) + (if n < |oc| && !SameType(fs, wip, elements, n) then [oc[n]] else [])
  {
  }

  /**
   * The deletion list is exact: an id is queued iff it is an old child whose
   * position has no element of the same type.
   */
  lemma {:induction false} UnmatchedUpToExact(fs: seq<Fiber>, wip: FiberId, elements: seq<Element>, n: nat, x: FiberId)
    requires WellLinked(fs) && wip < |fs|
    ensures var oc := OldChildren(fs, wip);
            x in UnmatchedUpTo(fs, wip, elements, n)
            <==> exists k :: 0 <= k < n && k < |oc| && oc[k] == x && !SameType(fs, wip, elements, k)
  {
    if n > 0 {
      UnmatchedUpToExact(fs, wip, elements, n - 1, x);
      var oc := OldChildren(fs, wip);
      if x in UnmatchedUpTo(fs, wip, elements, n) && x !in UnmatchedUpTo(fs, wip, elements, n - 1) {
        assert n - 1 < |oc| && oc[n - 1] == x && !SameType(fs, wip, elements, n - 1);
      }
    }
  }

  /** Every queued id is an old child, each with its old position. */
  lemma {:induction false} UnmatchedUpToPositions(fs: seq<Fiber>, wip: FiberId, elements: seq<Element>, n: nat)
    requires WellLinked(fs) && wip < |fs|
    ensures forall x | x in UnmatchedUpTo(fs, wip, elements, n) :: x in OldChildren(fs, wip)
    ensures Increasing(UnmatchedUpTo(fs, wip, elements, n))
  {
    var oc := OldChildren(fs, wip);
    assert LinkOk(fs, wip);
    if fs[wip].alternate.Some? {
      assert LinkOk(fs, fs[wip].alternate.value);
      ChainShape(fs, fs[fs[wip].alternate.value].child);
    }
    assert Increasing(oc);
    if n > 0 {
      UnmatchedUpToPositions(fs, wip, elements, n - 1);
      var u := UnmatchedUpTo(fs, wip, elements, n - 1);
      if n - 1 < |oc| && !SameType(fs, wip, elements, n - 1) {
        forall i | 0 <= i < |u| ensures u[i] < oc[n - 1] {
          UnmatchedUpToExact(fs, wip, elements, n - 1, u[i]);
          var k :| 0 <= k < n - 1 && k < |oc| && oc[k] == u[i] && !SameType(fs, wip, elements, k);
        }
        assert UnmatchedUpTo(fs, wip, elements, n) == u + [oc[n - 1]];
      }
    }
  }

  /** The deletion list of the whole call is exact, in old-chain order. */
  lemma UnmatchedExact(fs: seq<Fiber>, wip: FiberId, elements: seq<Element>, x: FiberId)
    requires WellLinked(fs) && wip < |fs|
    ensures x in Unmatched(fs, wip, elements)
            <==> exists k :: 0 <= k < |OldChildren(fs, wip)| && OldChildren(fs, wip)[k] == x && !SameType(fs, wip, elements, k)
    ensures Increasing(Unmatched(fs, wip, elements))
  {
    UnmatchedUpToExact(fs, wip, elements, Rounds(fs, wip, elements), x);
    UnmatchedUpToPositions(fs, wip, elements, Rounds(fs, wip, elements));
  }

  /** The reconciled arena keeps every link invariant. */
  lemma ReconciledWellLinked(fs: seq<Fiber>, wip: FiberId, elements: seq<Element>)
    requires WellLinked(fs) && wip < |fs|
    ensures |Reconciled(fs, wip, elements)| == |fs| + |elements|
    ensures WellLinked(Reconciled(fs, wip, elements))
  {
    var r := Reconciled(fs, wip, elements);
    assert Min(Rounds(fs, wip, elements), |elements|) == |elements|;
    forall j | 0 <= j < |r| ensures LinkOk(r, j) {
      ReconciledLinkOk(fs, wip, elements, j);
    }
  }

  /** The links of one fiber of the reconciled arena, old or new. */
  lemma ReconciledLinkOk(fs: seq<Fiber>, wip: FiberId, elements: seq<Element>, j: nat)
    requires WellLinked(fs) && wip < |fs| && j < |fs| + |elements|
    ensures |Reconciled(fs, wip, elements)| == |fs| + |elements|
    ensures LinkOk(Reconciled(fs, wip, elements), j)
  {
    assert Min(Rounds(fs, wip, elements), |elements|) == |elements|;
    if j < |fs| {
      ReconciledLinkOkOld(fs, wip, elements, j);
    } else {
      ReconciledLinkOkNew(fs, wip, elements, j);
    }
  }

  /** The links of an old fiber stay well formed. */
  lemma ReconciledLinkOkOld(fs: seq<Fiber>, wip: FiberId, elements: seq<Element>, j: nat)
    requires WellLinked(fs) && wip < |fs| && j < |fs|
    requires |Reconciled(fs, wip, elements)| == |fs| + |elements|
    ensures LinkOk(Reconciled(fs, wip, elements), j)
  {
    var r := Reconciled(fs, wip, elements);
    var n := Rounds(fs, wip, elements);
    assert r[j] == RetagAt(fs, wip, elements, n, j);
    assert LinkOk(fs, j);
    if fs[j].child.Some? {
      var c := fs[j].child.value;
      assert r[c] == RetagAt(fs, wip, elements, n, c);
    }
    if j == wip && n > 0 && |elements| > 0 {
      assert r[|fs|] == MadeAt(fs, wip, elements, n)[0] == Emitted(fs, wip, elements, 0, 1 < |elements|);
    }
    if fs[j].sibling.Some? {
      var c := fs[j].sibling.value;
      assert r[c] == RetagAt(fs, wip, elements, n, c);
    }
  }

  /** The links of a new fiber are well formed. */
  lemma ReconciledLinkOkNew(fs: seq<Fiber>, wip: FiberId, elements: seq<Element>, j: nat)
    requires WellLinked(fs) && wip < |fs| && |fs| <= j < |fs| + |elements|
    requires |Reconciled(fs, wip, elements)| == |fs| + |elements|
    ensures LinkOk(Reconciled(fs, wip, elements), j)
  {
    var r := Reconciled(fs, wip, elements);
    var n := Rounds(fs, wip, elements);
    var m := MadeAt(fs, wip, elements, n);
    var k := j - |fs|;
    assert r[j] == m[k] == Emitted(fs, wip, elements, k, k + 1 < |elements|);
    if k + 1 < |elements| {
      assert r[j + 1] == m[k + 1] == Emitted(fs, wip, elements, k + 1, k + 2 < |elements|);
    }
    assert LinkOk(fs, wip);
    if SameType(fs, wip, elements, k) {
      var oc := OldChildren(fs, wip);
      assert oc[k] < |fs|;
    }
  }

  /** The new fibers are linked one to the next, in element order. */
  lemma NewChain(fs: seq<Fiber>, wip: FiberId, elements: seq<Element>)
    requires WellLinked(fs) && wip < |fs| && 0 < |elements|
    requires WellLinked(Reconciled(fs, wip, elements))
    ensures Chain(Reconciled(fs, wip, elements), Some(|fs|)) == seq(|elements|, i => |fs| + i)
  {
    var r := Reconciled(fs, wip, elements);
    var m := MadeAt(fs, wip, elements, Rounds(fs, wip, elements));
    assert Min(Rounds(fs, wip, elements), |elements|) == |elements|;
    forall j | |fs| <= j < |fs| + |elements|
      ensures r[j].sibling == if j + 1 < |fs| + |elements| then Some(j + 1) else None
    {
      assert r[j] == m[j - |fs|] == Emitted(fs, wip, elements, j - |fs|, j - |fs| + 1 < |elements|);
    }
    RunChain(r, |fs|, |fs| + |elements|);
  }

  /**
   * After the call the child chain of wip holds exactly one fiber per
   * element, in element order, each with wip as its parent and the element's
   * type and props; with no elements (and some old children) wip has no child.
   */
  lemma ReconciledChildren(fs: seq<Fiber>, wip: FiberId, elements: seq<Element>)
    requires WellLinked(fs) && wip < |fs|
    ensures WellLinked(Reconciled(fs, wip, elements))
    ensures Rounds(fs, wip, elements) > 0 ==>
              Chain(Reconciled(fs, wip, elements), Reconciled(fs, wip, elements)[wip].child)
              == seq(|elements|, i => |fs| + i)
    ensures forall j | |fs| <= j < |fs| + |elements| ::
              && Reconciled(fs, wip, elements)[j].parent == Some(wip)
              && Reconciled(fs, wip, elements)[j].ftype == Some(elements[j - |fs|].etype)
              && Reconciled(fs, wip, elements)[j].props == elements[j - |fs|].props
  {
    ReconciledWellLinked(fs, wip, elements);
    var r := Reconciled(fs, wip, elements);
    var n := Rounds(fs, wip, elements);
    assert Min(n, |elements|) == |elements|;
    assert r[wip] == RetagAt(fs, wip, elements, n, wip);
    if n > 0 && |elements| > 0 {
      NewChain(fs, wip, elements);
    }
    forall j | |fs| <= j < |fs| + |elements|
      ensures r[j].parent == Some(wip) && r[j].ftype == Some(elements[j - |fs|].etype) && r[j].props == elements[j - |fs|].props
    {
      var k := j - |fs|;
      assert r[j] == MadeAt(fs, wip, elements, n)[k] == Emitted(fs, wip, elements, k, k + 1 < |elements|);
    }
  }

  /**
   * Per position: a matching old fiber gives an UPDATE fiber that reuses its
   * host node and points back to it, and the old fiber is not queued; any
   * other element gives a PLACEMENT fiber with no node and no alternate, and
   * the old fiber at that position, if any, is queued.
   */
  lemma ReconciledEffects(fs: seq<Fiber>, wip: FiberId, elements: seq<Element>, k: nat)
    requires WellLinked(fs) && wip < |fs| && k < |elements|
    ensures var r := Reconciled(fs, wip, elements);
            var oc := OldChildren(fs, wip);
            if SameType(fs, wip, elements, k) then
              && r[|fs| + k].effectTag == Some(Update)
              && r[|fs| + k].dom == fs[oc[k]].dom
              && r[|fs| + k].alternate == Some(oc[k])
              && oc[k] !in Unmatched(fs, wip, elements)
            else
              && r[|fs| + k].effectTag == Some(Placement)
              && r[|fs| + k].dom.None?
              && r[|fs| + k].alternate.None?
              && (k < |oc| ==> oc[k] in Unmatched(fs, wip, elements))
  {
    var r := Reconciled(fs, wip, elements);
    var oc := OldChildren(fs, wip);
    assert Min(Rounds(fs, wip, elements), |elements|) == |elements|;
    assert r[|fs| + k] == Emitted(fs, wip, elements, k, k + 1 < |elements|);
    if k < |oc| {
      UnmatchedExact(fs, wip, elements, oc[k]);
      assert LinkOk(fs, wip);
      if fs[wip].alternate.Some? {
        assert LinkOk(fs, fs[wip].alternate.value);
        ChainShape(fs, fs[fs[wip].alternate.value].child);
      }
    }
  }

  /** With every shared position matching, exactly the surplus old children are queued. */
  lemma {:induction false} PrefixMatchUpTo(fs: seq<Fiber>, wip: FiberId, elements: seq<Element>, n: nat)
    requires WellLinked(fs) && wip < |fs|
    requires forall k | 0 <= k < |elements| && k < |OldChildren(fs, wip)| :: SameType(fs, wip, elements, k)
    requires n <= |OldChildren(fs, wip)|
    ensures UnmatchedUpTo(fs, wip, elements, n) == if n <= |elements| then [] else OldChildren(fs, wip)[|elements|..n]
  {
    if n > 0 {
      PrefixMatchUpTo(fs, wip, elements, n - 1);
    }
  }

  /**
   * Growing or shrinking a list of same-typed children: only the old
   * children past the new length are queued for deletion (none when the
   * list grows).
   */
  lemma PrefixMatchQueuesTail(fs: seq<Fiber>, wip: FiberId, elements: seq<Element>)
    requires WellLinked(fs) && wip < |fs|
    requires forall k | 0 <= k < |elements| && k < |OldChildren(fs, wip)| :: SameType(fs, wip, elements, k)
    ensures Unmatched(fs, wip, elements)
            == if |OldChildren(fs, wip)| <= |elements| then [] else OldChildren(fs, wip)[|elements|..]
  {
    var oc := OldChildren(fs, wip);
    PrefixMatchUpTo(fs, wip, elements, |oc|);
    if |oc| <= |elements| {
      UnmatchedTail(fs, wip, elements, |oc|, Rounds(fs, wip, elements));
    } else {
      assert oc[|elements|..|oc|] == oc[|elements|..];
    }
  }

  /**
   * Growing or shrinking a list of same-typed children: the shared positions
   * become UPDATE fibers and the positions past the old length PLACEMENT
   * fibers.
   */
  lemma PrefixMatchUpdatesShared(fs: seq<Fiber>, wip: FiberId, elements: seq<Element>)
    requires WellLinked(fs) && wip < |fs|
    requires forall k | 0 <= k < |elements| && k < |OldChildren(fs, wip)| :: SameType(fs, wip, elements, k)
    ensures forall j | |fs| <= j < |fs| + |elements| ::
              Reconciled(fs, wip, elements)[j].effectTag
              == if j - |fs| < |OldChildren(fs, wip)| then Some(Update) else Some(Placement)
  {
    forall j | |fs| <= j < |fs| + |elements|
      ensures Reconciled(fs, wip, elements)[j].effectTag == if j - |fs| < |OldChildren(fs, wip)| then Some(Update) else Some(Placement)
    {
      ReconciledEffects(fs, wip, elements, j - |fs|);
    }
  }

  /** Rounds past the old children queue nothing more. */
  lemma {:induction false} UnmatchedTail(fs: seq<Fiber>, wip: FiberId, elements: seq<Element>, m: nat, n: nat)
    requires WellLinked(fs) && wip < |fs|
    requires |OldChildren(fs, wip)| <= m <= n
    ensures UnmatchedUpTo(fs, wip, elements, n) == UnmatchedUpTo(fs, wip, elements, m)
    decreases n
  {
    if n > m {
      UnmatchedTail(fs, wip, elements, m, n - 1);
    }
  }

  /**
   * The old children form a sibling chain in increasing id order whose
   * members all have wip's alternate as their parent; it starts at the
   * alternate's child.
   */
  lemma OldChildrenShape(fs: seq<Fiber>, wip: FiberId)
    requires WellLinked(fs) && wip < |fs|
    ensures Increasing(OldChildren(fs, wip))
    ensures SiblingLinked(fs, OldChildren(fs, wip))
    ensures forall k | 0 <= k < |OldChildren(fs, wip)| ::
              fs[OldChildren(fs, wip)[k]].parent.Some? && fs[OldChildren(fs, wip)[k]].parent == fs[wip].alternate
    ensures fs[wip].alternate.None? ==> OldChildren(fs, wip) == []
    ensures assert LinkOk(fs, wip);
            fs[wip].alternate.Some? ==>
              (OldChildren(fs, wip) != [] <==> fs[fs[wip].alternate.value].child.Some?)
              && (OldChildren(fs, wip) != [] ==> OldChildren(fs, wip)[0] == fs[fs[wip].alternate.value].child.value)
  {
    assert LinkOk(fs, wip);
    if fs[wip].alternate.Some? {
      var a := fs[wip].alternate.value;
      assert LinkOk(fs, a);
      ChainShape(fs, fs[a].child);
      ChildrenHaveParent(fs, a);
    }
  }

  /** Round i changes an old fiber only by the DELETION tag of round i and, in round 0, wip's child. */
  lemma RetagAtStep(fs: seq<Fiber>, wip: FiberId, elements: seq<Element>, i: nat, j: FiberId)
    requires WellLinked(fs) && wip < |fs| && j < |fs|
    ensures var oc := OldChildren(fs, wip);
            RetagAt(fs, wip, elements, i + 1, j)
            == RetagAt(fs, wip, elements, i, j).(
                 effectTag := if i < |oc| && oc[i] == j && !SameType(fs, wip, elements, i) then Some(Deletion)
                              else RetagAt(fs, wip, elements, i, j).effectTag,
                 child := if j == wip && i == 0 then (if |elements| > 0 then Some(|fs|) else None)
                          else RetagAt(fs, wip, elements, i, j).child)
  {
    UnmatchedUpToStep(fs, wip, elements, i);
  }

  /**
   * What the call leaves alone: old fibers keep their parent, sibling,
   * alternate, type, props, node and hooks, and all but wip keep their
   * child; the only effect tag set on an old fiber is DELETION, on exactly
   * the queued ones; new fibers have no hooks; and every queued fiber is an
   * old child with a parent.
   */
  lemma ReconciledKeeps(fs: seq<Fiber>, wip: FiberId, elements: seq<Element>)
    requires WellLinked(fs) && wip < |fs|
    ensures |Reconciled(fs, wip, elements)| == |fs| + |elements|
    ensures forall j | 0 <= j < |fs| ::
              && Reconciled(fs, wip, elements)[j].parent == fs[j].parent
              && Reconciled(fs, wip, elements)[j].sibling == fs[j].sibling
              && Reconciled(fs, wip, elements)[j].alternate == fs[j].alternate
              && Reconciled(fs, wip, elements)[j].ftype == fs[j].ftype
              && Reconciled(fs, wip, elements)[j].props == fs[j].props
              && Reconciled(fs, wip, elements)[j].dom == fs[j].dom
              && Reconciled(fs, wip, elements)[j].hooks == fs[j].hooks
    ensures forall j | 0 <= j < |fs| ::
              Reconciled(fs, wip, elements)[j].effectTag
              == if j in Unmatched(fs, wip, elements) then Some(Deletion) else fs[j].effectTag
    ensures forall j | 0 <= j < |fs| && j != wip :: Reconciled(fs, wip, elements)[j].child == fs[j].child
    ensures forall j | |fs| <= j < |fs| + |elements| :: Reconciled(fs, wip, elements)[j].hooks == []
    ensures forall x | x in Unmatched(fs, wip, elements) :: x < |fs| && fs[x].parent.Some?
  {
    var r := Reconciled(fs, wip, elements);
    var n := Rounds(fs, wip, elements);
    assert Min(n, |elements|) == |elements|;
    var o := OldsAt(fs, wip, elements, n);
    var m := MadeAt(fs, wip, elements, n);
    assert r == o + m;
    forall j | 0 <= j < |fs| ensures r[j] == RetagAt(fs, wip, elements, n, j) {
      assert r[j] == o[j];
    }
    forall j | |fs| <= j < |fs| + |elements| ensures r[j].hooks == [] {
      assert r[j] == m[j - |fs|] == Emitted(fs, wip, elements, j - |fs|, j - |fs| + 1 < |elements|);
    }
    UnmatchedAreOldChildren(fs, wip, elements);
  }

  /** Every queued fiber is an old child, so an old fiber with a parent. */
  lemma UnmatchedAreOldChildren(fs: seq<Fiber>, wip: FiberId, elements: seq<Element>)
    requires WellLinked(fs) && wip < |fs|
    ensures forall x | x in Unmatched(fs, wip, elements) :: x < |fs| && fs[x].parent.Some?
  {
    OldChildrenShape(fs, wip);
    UnmatchedUpToPositions(fs, wip, elements, Rounds(fs, wip, elements));
  }

  /**
   * One round on the old fibers: the old child of the round is tagged
   * DELETION when it does not match, then round 0 points wip at its first
   * new child.
   */
  lemma OldsAtStep(fs: seq<Fiber>, wip: FiberId, elements: seq<Element>, n: nat)
    requires WellLinked(fs) && wip < |fs|
    ensures var oc := OldChildren(fs, wip);
            var o := OldsAt(fs, wip, elements, n);
            var tagged := if n < |oc| && !SameType(fs, wip, elements, n) then o[oc[n] := o[oc[n]].(effectTag := Some(Deletion))] else o;
            OldsAt(fs, wip, elements, n + 1)
            == if n == 0 then tagged[wip := tagged[wip].(child := if n < |elements| then Some(|fs|) else None)] else tagged
  {
    var oc := OldChildren(fs, wip);
    var o := OldsAt(fs, wip, elements, n);
    var tagged := if n < |oc| && !SameType(fs, wip, elements, n) then o[oc[n] := o[oc[n]].(effectTag := Some(Deletion))] else o;
    var want := if n == 0 then tagged[wip := tagged[wip].(child := if n < |elements| then Some(|fs|) else None)] else tagged;
    forall j | 0 <= j < |fs| ensures OldsAt(fs, wip, elements, n + 1)[j] == want[j] {
      RetagAtStep(fs, wip, elements, n, j);
    }
  }

  /**
   * One round on the new fibers, for a round with an element: the fresh
   * fiber is appended, then linked as the sibling of the previous one.
   */
  lemma MadeAtStep(fs: seq<Fiber>, wip: FiberId, elements: seq<Element>, n: nat)
    requires WellLinked(fs) && wip < |fs|
    ensures var m := MadeAt(fs, wip, elements, n);
            MadeAt(fs, wip, elements, n + 1)
            == if |elements| <= n then m
               else if n == 0 then m + [Fresh(fs, wip, elements, n)]
               else (m + [Fresh(fs, wip, elements, n)])[n - 1 := m[n - 1].(sibling := Some(|fs| + n))]
  {
    var m := MadeAt(fs, wip, elements, n);
    var m1 := MadeAt(fs, wip, elements, n + 1);
    if n < |elements| {
      var want := if n == 0 then m + [Fresh(fs, wip, elements, n)]
                  else (m + [Fresh(fs, wip, elements, n)])[n - 1 := m[n - 1].(sibling := Some(|fs| + n))];
      assert |m1| == n + 1 == |want|;
      forall k | 0 <= k <= n ensures m1[k] == want[k] {
        assert m1[k] == Emitted(fs, wip, elements, k, k < n);
        if k < n {
          assert m[k] == Emitted(fs, wip, elements, k, k + 1 < n);
        } else {
          assert want[k] == Fresh(fs, wip, elements, n);
        }
      }
    }
  }

  /** The loop's first old fiber: the alternate's child, the head of the old children. */
  lemma OldChildrenFirst(fs: seq<Fiber>, wip: FiberId)
    requires WellLinked(fs) && wip < |fs|
    ensures assert LinkOk(fs, wip);
            (if fs[wip].alternate.Some? then assert LinkOk(fs, fs[wip].alternate.value); fs[fs[wip].alternate.value].child else None)
            == if 0 < |OldChildren(fs, wip)| then Some(OldChildren(fs, wip)[0]) else None
  {
    OldChildrenShape(fs, wip);
  }

  /** The loop's next old fiber: the sibling of old child i is old child i + 1. */
  lemma OldChildrenNext(fs: seq<Fiber>, wip: FiberId, i: nat)
    requires WellLinked(fs) && wip < |fs| && i < |OldChildren(fs, wip)|
    ensures fs[OldChildren(fs, wip)[i]].sibling
            == if i + 1 < |OldChildren(fs, wip)| then Some(OldChildren(fs, wip)[i + 1]) else None
  {
    OldChildrenShape(fs, wip);
    if i + 1 == |OldChildren(fs, wip)| {
      assert OldChildren(fs, wip)[i] == OldChildren(fs, wip)[|OldChildren(fs, wip)| - 1];
    }
  }
}

/** Fibers and the arena that holds both generations of them. A fiber's
    `parent`, `child`, `sibling` and `alternate` links are indices into
    the arena. Fibers are only ever appended, so a child or a next
    sibling always sits after its fiber and a parent or an alternate
    before it. This module also holds the specification functions of the
    depth-first cursor and of the commit pass. */
module FiberArena {
  import opened Nodes
  import opened HookStore
  import PropDiff

  /** The effect tag the reconciler sets and the commit pass reads. */
  datatype Tag = NoTag | Placement | Update | Deletion

  /** A fiber. `ftype` is None exactly for a root fiber, which the source
      builds without a `type`. */
  datatype Fiber = Fiber(
    ftype: Option<ElemType>,
    props: Props,
    dom: Option<HostRef>,
    parent: Option<FiberId>,
    child: Option<FiberId>,
    sibling: Option<FiberId>,
    alternate: Option<FiberId>,
    tag: Tag,
    hooks: seq<Hook>)

  /** The shape rules every fiber of the arena keeps:
      - a root (no parent) is untyped, holds the container node and has no
        sibling; every other fiber is typed and comes after its parent;
      - a child or next sibling comes later, and points back to the same
        parent (the fiber itself, or the fiber's parent);
      - an alternate comes earlier; an UPDATE fiber always has one. */
  ghost predicate FiberOk(fs: seq<Fiber>, i: nat)
    requires i < |fs|
  {
    var f := fs[i];
    (f.parent.None? <==> f.ftype.None?) &&
    (f.parent.None? ==> f.dom.Some? && f.sibling.None?) &&
    (f.parent.Some? ==> f.parent.value < i) &&
    (f.child.Some? ==> i < f.child.value < |fs| && fs[f.child.value].parent == Some(i)) &&
    (f.sibling.Some? ==> i < f.sibling.value < |fs| && fs[f.sibling.value].parent == f.parent) &&
    (f.alternate.Some? ==> f.alternate.value < i) &&
    (f.tag.Update? ==> f.alternate.Some?)
  }

  ghost predicate Wf(fs: seq<Fiber>) {
    forall i :: 0 <= i < |fs| ==> FiberOk(fs, i)
  }

  /** Appending a fiber that keeps the rules keeps the arena well formed. */
  lemma AppendKeepsWf(fs: seq<Fiber>, g: Fiber)
    requires Wf(fs) && FiberOk(fs + [g], |fs|)
    ensures Wf(fs + [g])
  {
    var gs := fs + [g];
    forall i | 0 <= i < |gs| ensures FiberOk(gs, i) {
      if i < |fs| {
        assert FiberOk(fs, i);
      }
    }
  }

  /** A termination measure for walks along child and sibling links. */
  function Remaining(fs: seq<Fiber>, o: Option<FiberId>): nat {
    if o.Some? && o.value < |fs| then |fs| - o.value else 0
  }

  predicate ValidId(fs: seq<Fiber>, o: Option<FiberId>) {
    o.Some? ==> o.value < |fs|
  }

  // ---------------------------------------------------------------------
  // Sibling chains

  /** The sibling chain starting at `o`, as the reconciler walks it. */
  function Chain(fs: seq<Fiber>, o: Option<FiberId>): (ch: seq<FiberId>)
    requires Wf(fs) && ValidId(fs, o)
    ensures |ch| == 0 <==> o.None?
    ensures o.Some? ==> ch[0] == o.value
    ensures forall k :: 0 <= k < |ch| ==> o.value <= ch[k] < |fs|
    decreases Remaining(fs, o)
  {
    if o.None? then []
    else
      assert FiberOk(fs, o.value);
      [o.value] + Chain(fs, fs[o.value].sibling)
  }

  /** A chain is linked by `sibling` from one fiber to the next and ends
      with no sibling; its fibers share a parent and come in increasing
      order. */
  lemma {:induction false} ChainShape(fs: seq<Fiber>, o: Option<FiberId>)
    requires Wf(fs) && ValidId(fs, o)
    ensures var ch := Chain(fs, o);
      (forall k :: 0 <= k < |ch| - 1 ==> fs[ch[k]].sibling == Some(ch[k + 1])) &&
      (|ch| > 0 ==> fs[ch[|ch| - 1]].sibling == None) &&
      (forall k :: 0 <= k < |ch| ==> fs[ch[k]].parent == fs[o.value].parent) &&
      (forall j, k :: 0 <= j < k < |ch| ==> ch[j] < ch[k])
    decreases Remaining(fs, o)
  {
    if o.Some? {
      assert FiberOk(fs, o.value);
      var s := fs[o.value].sibling;
      ChainShape(fs, s);
      var rest := Chain(fs, s);
      var ch := Chain(fs, o);
      assert ch == [o.value] + rest;
      assert forall k :: 1 <= k < |ch| ==> ch[k] == rest[k - 1];
      if s.Some? {
        assert FiberOk(fs, s.value);
      }
    }
  }

  // ---------------------------------------------------------------------
  // The depth-first work cursor

  /** The `sibling` of the nearest fiber on the path from `i` up through its
      ancestors, or None when there is none. */
  function SiblingUp(fs: seq<Fiber>, i: FiberId): (r: Option<FiberId>)
    requires Wf(fs) && i < |fs|
    ensures ValidId(fs, r)
    ensures r.Some? ==> fs[r.value].parent.Some?
    decreases i
  {
    assert FiberOk(fs, i);
    if fs[i].sibling.Some? then fs[i].sibling
    else if fs[i].parent.Some? then SiblingUp(fs, fs[i].parent.value)
    else None
  }

  /** The fiber visited after `i`: its child, else `SiblingUp`. */
  function NextUnit(fs: seq<Fiber>, i: FiberId): (r: Option<FiberId>)
    requires Wf(fs) && i < |fs|
    ensures ValidId(fs, r)
    ensures fs[i].child.Some? ==> r == fs[i].child
    ensures r.Some? ==> fs[r.value].parent.Some?
  {
    assert FiberOk(fs, i);
    if fs[i].child.Some? then fs[i].child else SiblingUp(fs, i)
  }

  /** The depth-first pre-order of the subtree at `i`. */
  function PreOrder(fs: seq<Fiber>, i: FiberId): (r: seq<FiberId>)
    requires Wf(fs) && i < |fs|
    ensures |r| > 0 && r[0] == i
    ensures forall k :: 0 <= k < |r| ==> i <= r[k] < |fs|
    decreases |fs| - i, 1
  {
    assert FiberOk(fs, i);
    [i] + ChainOrder(fs, fs[i].child)
  }

  /** The pre-orders of the subtrees along a sibling chain, one after the
      other. */
  function ChainOrder(fs: seq<Fiber>, o: Option<FiberId>): (r: seq<FiberId>)
    requires Wf(fs) && ValidId(fs, o)
    ensures o.None? ==> r == []
    ensures o.Some? ==> |r| > 0 && r[0] == o.value
    ensures forall k :: 0 <= k < |r| ==> o.Some? && o.value <= r[k] < |fs|
    decreases Remaining(fs, o), 2
  {
    if o.None? then []
    else
      assert FiberOk(fs, o.value);
      PreOrder(fs, o.value) + ChainOrder(fs, fs[o.value].sibling)
  }

  /** Starting the cursor at `order[0]`, it visits `order` in turn and then
      moves to `after`. */
  ghost predicate Follows(fs: seq<Fiber>, order: seq<FiberId>, after: Option<FiberId>)
    requires Wf(fs)
  {
    (forall k :: 0 <= k < |order| ==> order[k] < |fs|) &&
    (|order| > 0 ==>
      (forall k :: 0 <= k < |order| - 1 ==> NextUnit(fs, order[k]) == Some(order[k + 1])) &&
      NextUnit(fs, order[|order| - 1]) == after)
  }

  lemma FollowsConcat(fs: seq<Fiber>, a: seq<FiberId>, b: seq<FiberId>, after: Option<FiberId>)
    requires Wf(fs) && |a| > 0 && |b| > 0
    requires Follows(fs, a, Some(b[0])) && Follows(fs, b, after)
    ensures Follows(fs, a + b, after)
  {
    var ab := a + b;
    forall k | 0 <= k < |ab| - 1 ensures NextUnit(fs, ab[k]) == Some(ab[k + 1]) {
      if k < |a| - 1 {
        assert ab[k] == a[k] && ab[k + 1] == a[k + 1];
      } else if k == |a| - 1 {
        assert ab[k] == a[|a| - 1] && ab[k + 1] == b[0];
      } else {
        assert ab[k] == b[k - |a|] && ab[k + 1] == b[k - |a| + 1];
      }
    }
    assert ab[|ab| - 1] == b[|b| - 1];
  }

  /** After the last fiber of a subtree the cursor leaves the subtree for
      the next sibling up from its root. */
  lemma {:induction false} PreOrderFollows(fs: seq<Fiber>, i: FiberId)
    requires Wf(fs) && i < |fs|
    ensures Follows(fs, PreOrder(fs, i), SiblingUp(fs, i))
    decreases |fs| - i, 1
  {
    assert FiberOk(fs, i);
    var c := fs[i].child;
    if c.Some? {
      ChainFollows(fs, c.value, i);
      assert Follows(fs, [i], Some(ChainOrder(fs, c)[0]));
      FollowsConcat(fs, [i], ChainOrder(fs, c), SiblingUp(fs, i));
    }
  }

  lemma {:induction false} ChainFollows(fs: seq<Fiber>, c: FiberId, p: FiberId)
    requires Wf(fs) && p < c < |fs| && fs[c].parent == Some(p)
    ensures Follows(fs, ChainOrder(fs, Some(c)), SiblingUp(fs, p))
    decreases |fs| - c, 2
  {
    assert FiberOk(fs, c);
    PreOrderFollows(fs, c);
    var s := fs[c].sibling;
    if s.Some? {
      assert FiberOk(fs, s.value);
      ChainFollows(fs, s.value, p);
      FollowsConcat(fs, PreOrder(fs, c), ChainOrder(fs, s), SiblingUp(fs, p));
    } else {
      assert ChainOrder(fs, Some(c)) == PreOrder(fs, c) + [];
    }
  }

  /** From a root, the cursor visits the whole tree in depth-first
      pre-order and then stops. */
  lemma RootTraversal(fs: seq<Fiber>, root: FiberId)
    requires Wf(fs) && root < |fs| && fs[root].parent.None?
    ensures Follows(fs, PreOrder(fs, root), None)
  {
    assert FiberOk(fs, root);
    PreOrderFollows(fs, root);
  }

  // ---------------------------------------------------------------------
  // The commit pass

  /** The host node of the nearest fiber at or above `i` that has one. */
  function DomHolder(fs: seq<Fiber>, i: FiberId): (r: HostRef)
    requires Wf(fs) && i < |fs|
    ensures fs[i].dom.Some? ==> r == fs[i].dom.value
    ensures exists j :: 0 <= j <= i && fs[j].dom == Some(r)
    decreases i
  {
    assert FiberOk(fs, i);
    if fs[i].dom.Some? then fs[i].dom.value else DomHolder(fs, fs[i].parent.value)
  }

  /** The host node `commitDeletion` removes: the first one found going
      down the first-child line. None where the source reads a missing
      child and throws. */
  function FirstHostDom(fs: seq<Fiber>, o: Option<FiberId>): Option<HostRef>
    requires Wf(fs) && ValidId(fs, o)
    decreases Remaining(fs, o)
  {
    if o.None? then None
    else if fs[o.value].dom.Some? then fs[o.value].dom
    else
      assert FiberOk(fs, o.value);
      FirstHostDom(fs, fs[o.value].child)
  }

  /** `commitDeletion(fiber, domParent)`: at most one call, removing the
      first host node below `o` from `parentDom`. */
  function DeletionOps(fs: seq<Fiber>, o: Option<FiberId>, parentDom: HostRef): (r: seq<HostOp>)
    requires Wf(fs) && ValidId(fs, o)
    ensures |r| == 1 <==> FirstHostDom(fs, o).Some?
    ensures forall op :: op in r ==> op == RemoveChild(parentDom, op.node)
  {
    match FirstHostDom(fs, o)
    case Some(node) => [RemoveChild(parentDom, node)]
    case None => []
  }

  /** A fiber `commitWork` can be called on: absent, or a fiber with a
      parent. */
  predicate Committable(fs: seq<Fiber>, o: Option<FiberId>) {
    o.Some? ==> o.value < |fs| && fs[o.value].parent.Some?
  }

  /** The child of fiber `i`, which `commitWork` may be called on. */
  function ChildOf(fs: seq<Fiber>, i: FiberId): (r: Option<FiberId>)
    requires Wf(fs) && i < |fs|
    ensures r == fs[i].child
    ensures Committable(fs, r) && (r.Some? ==> i < r.value)
  {
    assert FiberOk(fs, i);
    fs[i].child
  }

  /** The host calls `commitWork` makes for fiber `i` itself (not for its
      subtree), given the host node `parentDom` it hangs under: append a
      placed node, or bring an updated node's props up to date. */
  function OwnOps(fs: seq<Fiber>, i: FiberId, parentDom: HostRef): (r: seq<HostOp>)
    requires Wf(fs) && i < |fs|
    ensures forall op :: op in r ==> Some(op.node) == fs[i].dom && (op.AppendChild? || PropDiff.Rank(op) < 4)
  {
    var f := fs[i];
    assert FiberOk(fs, i);
    if f.tag == Placement && f.dom.Some? then [AppendChild(parentDom, f.dom.value)]
    else if f.tag == Update && f.dom.Some? then PropDiff.UpdateDom(f.dom.value, fs[f.alternate.value].props.attrs, f.props.attrs)
    else []
  }

  /** The host calls `commitWork(fiber)` makes. */
  function CommitOps(fs: seq<Fiber>, o: Option<FiberId>): (r: seq<HostOp>)
    requires Wf(fs) && Committable(fs, o)
    ensures forall op :: op in r ==> !op.CreateElementNode? && !op.CreateTextNode?
    decreases Remaining(fs, o)
  {
    if o.None? then []
    else
      var f := fs[o.value];
      assert FiberOk(fs, o.value);
      var parentDom := DomHolder(fs, f.parent.value);
      if f.tag == Deletion then DeletionOps(fs, o, parentDom)
      else OwnOps(fs, o.value, parentDom) + CommitOps(fs, f.child) + CommitOps(fs, f.sibling)
  }

  /** One step of the commit pass at fiber `i`: a DELETION fiber gives its
      removal, any other fiber its own operation followed by its child's
      and its sibling's subtrees, each of which may itself be committed. */
  lemma CommitOpsStep(fs: seq<Fiber>, i: FiberId)
    requires Wf(fs) && Committable(fs, Some(i))
    ensures fs[i].parent.Some? && fs[i].parent.value < |fs|
    ensures Committable(fs, fs[i].child) && Committable(fs, fs[i].sibling)
    ensures Remaining(fs, fs[i].child) < Remaining(fs, Some(i))
    ensures Remaining(fs, fs[i].sibling) < Remaining(fs, Some(i))
    ensures var parentDom := DomHolder(fs, fs[i].parent.value);
      CommitOps(fs, Some(i)) ==
        if fs[i].tag == Deletion then DeletionOps(fs, Some(i), parentDom)
        else OwnOps(fs, i, parentDom) + CommitOps(fs, fs[i].child) + CommitOps(fs, fs[i].sibling)
  {
    assert FiberOk(fs, i);
  }

  /** `deletions.forEach(commitWork)`. */
  function DeletionPass(fs: seq<Fiber>, ds: seq<FiberId>): seq<HostOp>
    requires Wf(fs) && forall d :: d in ds ==> Committable(fs, Some(d))
  {
    if |ds| == 0 then []
    else DeletionPass(fs, ds[..|ds| - 1]) + CommitOps(fs, Some(ds[|ds| - 1]))
  }

  /** The host calls of `commitRoot` with wip root `root`: the deletion
      pass first, then the new tree below the root. */
  function CommitPass(fs: seq<Fiber>, ds: seq<FiberId>, root: FiberId): seq<HostOp>
    requires Wf(fs) && root < |fs| && forall d :: d in ds ==> Committable(fs, Some(d))
  {
    DeletionPass(fs, ds) + CommitOps(fs, ChildOf(fs, root))
  }

  /** `commitWork(o)` reaches fiber `j`: `j` is `o` itself or, unless `o`
      is a DELETION fiber, is reached from its child or its sibling. */
  ghost predicate Visits(fs: seq<Fiber>, o: Option<FiberId>, j: FiberId)
    requires Wf(fs) && ValidId(fs, o)
    decreases Remaining(fs, o)
  {
    o.Some? &&
    (o.value == j ||
     (fs[o.value].tag != Deletion &&
      assert FiberOk(fs, o.value);
      (Visits(fs, fs[o.value].child, j) || Visits(fs, fs[o.value].sibling, j))))
  }

  /** Where a host call of `commitWork(o)` comes from, always a fiber the
      walk reaches:
      - an append of a PLACEMENT fiber's node under the nearest host node
        above it;
      - a removal, from under that same nearest host node, of the first
        host node below a DELETION fiber;
      - an attribute or listener call of an UPDATE fiber's prop diff,
        from its alternate's props to its own.
      The pass never creates host nodes. */
  ghost predicate Explained(fs: seq<Fiber>, o: Option<FiberId>, op: HostOp)
    requires Wf(fs) && ValidId(fs, o)
  {
    match op
    case AppendChild(p, n) =>
      exists j :: 0 <= j < |fs| && Visits(fs, o, j) && fs[j].tag == Placement && fs[j].dom == Some(n) &&
        fs[j].parent.Some? && fs[j].parent.value < |fs| && p == DomHolder(fs, fs[j].parent.value)
    case RemoveChild(p, n) =>
      exists j :: 0 <= j < |fs| && Visits(fs, o, j) && fs[j].tag == Deletion && FirstHostDom(fs, Some(j)) == Some(n) &&
        fs[j].parent.Some? && fs[j].parent.value < |fs| && p == DomHolder(fs, fs[j].parent.value)
    case CreateElementNode(_, _) => false
    case CreateTextNode(_, _) => false
    case _ =>
      exists j :: 0 <= j < |fs| && Visits(fs, o, j) && fs[j].tag == Update && fs[j].dom == Some(op.node) &&
        fs[j].alternate.Some? && fs[j].alternate.value < |fs| &&
        op in PropDiff.UpdateDom(op.node, fs[fs[j].alternate.value].props.attrs, fs[j].props.attrs)
  }

  /** A call explained by what the child or the sibling of a non-DELETION
      fiber reaches is explained by what the fiber reaches. */
  lemma ExplainedWidens(fs: seq<Fiber>, i: FiberId, o: Option<FiberId>, op: HostOp)
    requires Wf(fs) && i < |fs| && fs[i].tag != Deletion
    requires o == fs[i].child || o == fs[i].sibling
    requires ValidId(fs, o) && Explained(fs, o, op)
    ensures Explained(fs, Some(i), op)
  {
    assert FiberOk(fs, i);
    forall j | 0 <= j < |fs| && Visits(fs, o, j) ensures Visits(fs, Some(i), j) {
    }
  }

  /** The calls a fiber makes for itself are explained by the fiber. */
  lemma OwnOpsExplained(fs: seq<Fiber>, i: FiberId)
    requires Wf(fs) && Committable(fs, Some(i)) && fs[i].tag != Deletion
    ensures fs[i].parent.value < |fs|
    ensures forall op :: op in OwnOps(fs, i, DomHolder(fs, fs[i].parent.value)) ==> Explained(fs, Some(i), op)
  {
    var f := fs[i];
    assert FiberOk(fs, i);
    assert Visits(fs, Some(i), i);
    var own := OwnOps(fs, i, DomHolder(fs, f.parent.value));
    if f.tag == Update && f.dom.Some? {
      var prev := fs[f.alternate.value].props.attrs;
      assert own == PropDiff.UpdateDom(f.dom.value, prev, f.props.attrs);
      PropDiff.UpdateDomOrder(f.dom.value, prev, f.props.attrs);
      forall op | op in own ensures Explained(fs, Some(i), op) {
        assert op.node == f.dom.value && PropDiff.Rank(op) < 4;
      }
    } else if f.tag == Placement && f.dom.Some? {
      forall op | op in own ensures Explained(fs, Some(i), op) {
        assert op == AppendChild(DomHolder(fs, f.parent.value), f.dom.value);
      }
    } else {
      assert own == [];
    }
  }

  /** Soundness of the commit pass: every call it makes is explained by a
      fiber it reaches. */
  lemma {:induction false} CommitOpsExplained(fs: seq<Fiber>, o: Option<FiberId>)
    requires Wf(fs) && Committable(fs, o)
    ensures forall op :: op in CommitOps(fs, o) ==> Explained(fs, o, op)
    decreases Remaining(fs, o)
  {
    if o.Some? {
      var i := o.value;
      var f := fs[i];
      CommitOpsStep(fs, i);
      var parentDom := DomHolder(fs, f.parent.value);
      if f.tag == Deletion {
        assert Visits(fs, o, i);
        forall op | op in CommitOps(fs, o) ensures Explained(fs, o, op) {
          assert op == RemoveChild(parentDom, FirstHostDom(fs, o).value);
        }
      } else {
        OwnOpsExplained(fs, i);
        CommitOpsExplained(fs, f.child);
        CommitOpsExplained(fs, f.sibling);
        forall op | op in CommitOps(fs, o) ensures Explained(fs, o, op) {
          if op in CommitOps(fs, f.child) {
            ExplainedWidens(fs, i, f.child, op);
          } else if op in CommitOps(fs, f.sibling) {
            ExplainedWidens(fs, i, f.sibling, op);
          }
        }
      }
    }
  }

  /** Completeness of the commit pass: every fiber it reaches gets its
      calls, against the nearest host node above it. A PLACEMENT fiber
      holding a node has it appended; an UPDATE fiber holding a node gets
      every call of its prop diff; a DELETION fiber has the first host node
      below it removed. */
  lemma {:induction false} CommitOpsComplete(fs: seq<Fiber>, o: Option<FiberId>, j: FiberId)
    requires Wf(fs) && Committable(fs, o) && Visits(fs, o, j)
    ensures j < |fs| && FiberOk(fs, j) && fs[j].parent.Some?
    ensures var f := fs[j];
      var parentDom := DomHolder(fs, f.parent.value);
      (f.tag == Placement && f.dom.Some? ==> AppendChild(parentDom, f.dom.value) in CommitOps(fs, o)) &&
      (f.tag == Update && f.dom.Some? ==>
        forall op :: op in PropDiff.UpdateDom(f.dom.value, fs[f.alternate.value].props.attrs, f.props.attrs) ==> op in CommitOps(fs, o)) &&
      (f.tag == Deletion && FirstHostDom(fs, Some(j)).Some? ==>
        RemoveChild(parentDom, FirstHostDom(fs, Some(j)).value) in CommitOps(fs, o))
    decreases Remaining(fs, o)
  {
    var i := o.value;
    CommitOpsStep(fs, i);
    assert FiberOk(fs, i);
    var f := fs[i];
    if i != j {
      if Visits(fs, f.child, j) {
        CommitOpsComplete(fs, f.child, j);
      } else {
        CommitOpsComplete(fs, f.sibling, j);
      }
    }
  }

  /** The deletion pass over fibers tagged DELETION only removes host
      nodes, at most one per entry. */
  lemma {:induction false} DeletionPassOnlyRemoves(fs: seq<Fiber>, ds: seq<FiberId>)
    requires Wf(fs) && forall d :: d in ds ==> Committable(fs, Some(d)) && fs[d].tag == Deletion
    ensures forall op :: op in DeletionPass(fs, ds) ==> op.RemoveChild?
    ensures |DeletionPass(fs, ds)| <= |ds|
  {
    if |ds| > 0 {
      var last := ds[|ds| - 1];
      assert last in ds;
      assert forall d :: d in ds[..|ds| - 1] ==> d in ds;
      DeletionPassOnlyRemoves(fs, ds[..|ds| - 1]);
    }
  }

  /** A tree in which the commit walk reaches no DELETION fiber removes no
      host node. */
  lemma {:induction false} NoDeletionNoRemoval(fs: seq<Fiber>, o: Option<FiberId>)
    requires Wf(fs) && Committable(fs, o)
    requires forall j :: 0 <= j < |fs| && Visits(fs, o, j) ==> fs[j].tag != Deletion
    ensures forall op :: op in CommitOps(fs, o) ==> !op.RemoveChild?
  {
    CommitOpsExplained(fs, o);
  }
}

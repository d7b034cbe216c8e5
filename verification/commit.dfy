/** The commit pass of the reconciler: the walks of `commitWork` and
    `commitDeletion` over a finished work-in-progress tree. They change
    nothing but the host, so they are written over the arena value and
    hand back the host operations they issue, in order. */
module Commit {
  import opened Nodes
  import opened HookStore
  import opened FiberArena

  /** `commitDeletion(fiber, domParent)`: removes the first host node
      found down the first-child line. */
  method CommitDeletion(fs: seq<Fiber>, o: Option<FiberId>, domParent: HostRef) returns (ops: seq<HostOp>)
    requires Wf(fs) && ValidId(fs, o)
    ensures ops == DeletionOps(fs, o, domParent)
    decreases Remaining(fs, o)
  {
    ops := [];
    if o.None? {
      return;
    }
    var f := fs[o.value];
    if f.dom.Some? {
      ops := [RemoveChild(domParent, f.dom.value)];
    } else {
      assert FiberOk(fs, o.value);
      ops := CommitDeletion(fs, f.child, domParent);
    }
  }

  /** The `domParentFiber` walk of `commitWork`: up from fiber `p` to the
      first fiber holding a host node. */
  method FindDomParent(fs: seq<Fiber>, p: FiberId) returns (domParent: HostRef)
    requires Wf(fs) && p < |fs|
    ensures domParent == DomHolder(fs, p)
  {
    var holder: FiberId := p;
    while fs[holder].dom.None?
      invariant holder < |fs|
      invariant DomHolder(fs, holder) == DomHolder(fs, p)
      decreases holder
    {
      assert FiberOk(fs, holder);
      holder := fs[holder].parent.value;
    }
    domParent := fs[holder].dom.value;
  }

  /** `commitWork(fiber)`: finds the nearest host node above the fiber,
      applies the fiber's effect tag against it, and recurses into the
      child and the sibling; a DELETION fiber's subtree is not entered. */
  method CommitWork(fs: seq<Fiber>, o: Option<FiberId>) returns (ops: seq<HostOp>)
    requires Wf(fs) && Committable(fs, o)
    ensures ops == CommitOps(fs, o)
    decreases Remaining(fs, o)
  {
    ops := [];
    if o.None? {
      return;
    }
    var i := o.value;
    CommitOpsStep(fs, i);
    var f := fs[i];
    var domParent := FindDomParent(fs, f.parent.value);
    if f.tag == Deletion {
      ops := CommitDeletion(fs, o, domParent);
    } else {
      ops := OwnOps(fs, i, domParent);
      var below := CommitWork(fs, f.child);
      ops := ops + below;
      var after := CommitWork(fs, f.sibling);
      ops := ops + after;
    }
  }

  /** `commitRoot()`: `commitWork` on every queued deletion, in queue
      order, then on the child of the wip root `root`. */
  method CommitPassOps(fs: seq<Fiber>, ds: seq<FiberId>, root: FiberId) returns (ops: seq<HostOp>)
    requires Wf(fs) && root < |fs| && forall d :: d in ds ==> Committable(fs, Some(d))
    ensures ops == CommitPass(fs, ds, root)
  {
    ops := [];
    var i := 0;
    while i < |ds|
      invariant i <= |ds|
      invariant ops == DeletionPass(fs, ds[..i])
    {
      assert ds[..i + 1][..i] == ds[..i];
      var removed := CommitWork(fs, Some(ds[i]));
      ops := ops + removed;
      i := i + 1;
    }
    assert ds[..i] == ds;
    var placed := CommitWork(fs, ChildOf(fs, root));
    ops := ops + placed;
  }
}

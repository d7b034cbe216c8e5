/** The engine state (the module-level variables of the source) as one
    object, with the operations that change it: starting a render,
    performing one unit of work, reconciling children, the work loop, the
    commit pass and the three hook primitives. */
module Runtime {
  import opened Nodes
  import opened HookStore
  import opened Positional
  import opened FiberArena
  import opened Commit
  import PropDiff

  /** The first old child the reconciler compares against: the child of
      the fiber's alternate, if any. */
  function AltChild(fs: seq<Fiber>, w: FiberId): (r: Option<FiberId>)
    requires Wf(fs) && w < |fs|
    ensures ValidId(fs, r)
    ensures r.Some? ==> fs[w].alternate.Some? && fs[r.value].parent == fs[w].alternate
  {
    assert FiberOk(fs, w);
    if fs[w].alternate.Some? then
      assert FiberOk(fs, fs[w].alternate.value);
      fs[fs[w].alternate.value].child
    else None
  }

  function NewTypes(elements: seq<Element>): (r: seq<ElemType>)
    ensures |r| == |elements|
    ensures forall k :: 0 <= k < |elements| ==> r[k] == elements[k].etype
  {
    seq(|elements|, k requires 0 <= k < |elements| => elements[k].etype)
  }

  predicate InRange(fs: seq<Fiber>, ch: seq<FiberId>) {
    forall k :: 0 <= k < |ch| ==> ch[k] < |fs|
  }

  function OldTypes(fs: seq<Fiber>, ch: seq<FiberId>): (r: seq<Option<ElemType>>)
    requires InRange(fs, ch)
    ensures |r| == |ch|
    ensures forall k :: 0 <= k < |ch| ==> r[k] == fs[ch[k]].ftype
  {
    seq(|ch|, k requires 0 <= k < |ch| => fs[ch[k]].ftype)
  }

  /** The fibers at the given chain positions, in order. */
  function Picked(ch: seq<FiberId>, ps: seq<nat>): (r: seq<FiberId>)
    requires forall i :: 0 <= i < |ps| ==> ps[i] < |ch|
    ensures |r| == |ps|
    ensures forall i :: 0 <= i < |ps| ==> r[i] == ch[ps[i]]
  {
    seq(|ps|, i requires 0 <= i < |ps| => ch[ps[i]])
  }

  /** An old fiber sits at position `k` of the old chain and has the
      type of the k-th element: it is updated in place. */
  predicate SameType(fs: seq<Fiber>, elements: seq<Element>, ch: seq<FiberId>, k: nat) {
    k < |elements| && k < |ch| && ch[k] < |fs| && fs[ch[k]].ftype == Some(elements[k].etype)
  }

  /** The fiber the reconciler builds for the k-th element (before its
      sibling link is set): an UPDATE of the old fiber at the same
      position, sharing its host node, when the types match; otherwise a
      fresh PLACEMENT fiber with no host node and no alternate. */
  function Planned(fs: seq<Fiber>, w: FiberId, elements: seq<Element>, ch: seq<FiberId>, k: nat): Fiber
    requires k < |elements|
  {
    var e := elements[k];
    if SameType(fs, elements, ch, k) then
      Fiber(Some(e.etype), e.props, fs[ch[k]].dom, Some(w), None, None, Some(ch[k]), Update, [])
    else
      Fiber(Some(e.etype), e.props, None, Some(w), None, None, None, Placement, [])
  }

  /** The old fibers among the first `k` of the chain that are not
      matched, in chain order: those the reconciler tags for deletion. */
  function DeletedFibers(fs: seq<Fiber>, elements: seq<Element>, ch: seq<FiberId>, k: nat): (r: seq<FiberId>)
    requires k <= |ch|
    ensures forall d :: d in r ==> exists p :: 0 <= p < k && ch[p] == d && !SameType(fs, elements, ch, p)
  {
    if k == 0 then []
    else DeletedFibers(fs, elements, ch, k - 1) + (if SameType(fs, elements, ch, k - 1) then [] else [ch[k - 1]])
  }

  /** The type test agrees with the positional plan. */
  lemma SameTypeIsMatches(fs: seq<Fiber>, elements: seq<Element>, ch: seq<FiberId>, k: nat)
    requires InRange(fs, ch)
    ensures SameType(fs, elements, ch, k) == Matches(NewTypes(elements), OldTypes(fs, ch), k)
  {
  }

  lemma PickedAppend(ch: seq<FiberId>, ps: seq<nat>, p: nat)
    requires (forall i :: 0 <= i < |ps| ==> ps[i] < |ch|) && p < |ch|
    ensures Picked(ch, ps + [p]) == Picked(ch, ps) + [ch[p]]
  {
    var qs := ps + [p];
    assert forall i :: 0 <= i < |ps| ==> qs[i] == ps[i];
  }

  /** One more position of the plan: a deleted position adds its old
      fiber to the tagged ones, a matched one adds nothing. */
  lemma PlanStep(fs: seq<Fiber>, elements: seq<Element>, ch: seq<FiberId>, k: nat)
    requires InRange(fs, ch) && 0 < k <= |ch|
    requires DeletedFibers(fs, elements, ch, k - 1) == Picked(ch, DeletedBelow(NewTypes(elements), OldTypes(fs, ch), k - 1))
    ensures DeletedFibers(fs, elements, ch, k) == Picked(ch, DeletedBelow(NewTypes(elements), OldTypes(fs, ch), k))
  {
    var nt := NewTypes(elements);
    var ot := OldTypes(fs, ch);
    SameTypeIsMatches(fs, elements, ch, k - 1);
    var before := DeletedBelow(nt, ot, k - 1);
    var rec := DeletedFibers(fs, elements, ch, k - 1);
    if SameType(fs, elements, ch, k - 1) {
      assert DeletedFibers(fs, elements, ch, k) == rec;
      assert DeletedBelow(nt, ot, k) == before;
    } else {
      assert DeletedFibers(fs, elements, ch, k) == rec + [ch[k - 1]];
      assert DeletedBelow(nt, ot, k) == before + [k - 1];
      PickedAppend(ch, before, k - 1);
    }
  }

  /** The fibers tagged for deletion are the old fibers at the positions
      the positional plan deletes. */
  lemma {:induction false} DeletedFibersFollowPlan(fs: seq<Fiber>, elements: seq<Element>, ch: seq<FiberId>, k: nat)
    requires InRange(fs, ch) && k <= |ch|
    ensures DeletedFibers(fs, elements, ch, k) == Picked(ch, DeletedBelow(NewTypes(elements), OldTypes(fs, ch), k))
  {
    if k == 0 {
      assert DeletedBelow(NewTypes(elements), OldTypes(fs, ch), 0) == [];
    } else {
      DeletedFibersFollowPlan(fs, elements, ch, k - 1);
      PlanStep(fs, elements, ch, k);
    }
  }

  /** The fibers that existed before are unchanged, except that those in
      `dels` are tagged DELETION and, when `newChild` says so, the child
      link of `w` is replaced. */
  ghost predicate OldKept(fs0: seq<Fiber>, fs: seq<Fiber>, w: FiberId, newChild: Option<Option<FiberId>>, dels: seq<FiberId>)
  {
    |fs0| <= |fs| &&
    forall j :: 0 <= j < |fs0| ==>
      fs[j] == fs0[j].(tag := if j in dels then Deletion else fs0[j].tag,
                       child := if j == w && newChild.Some? then newChild.value else fs0[j].child)
  }

  /** The new fibers `base .. base + count` are the planned ones, linked as
      a sibling chain in element order. */
  ghost predicate NewLinked(fs0: seq<Fiber>, fs: seq<Fiber>, w: FiberId, elements: seq<Element>, ch: seq<FiberId>, count: nat)
    requires count <= |elements|
  {
    var base := |fs0|;
    |fs| == base + count &&
    forall k :: 0 <= k < count ==>
      fs[base + k] == Planned(fs0, w, elements, ch, k).(sibling := if k + 1 < count then Some(base + k + 1) else None)
  }

  /** The new child link of the reconciled fiber: the first new fiber,
      else none when there was an old child to replace, else unchanged. */
  function ChildAfter(base: nat, n: nat, oldCount: nat): Option<Option<FiberId>> {
    if n > 0 then Some(Some(base)) else if oldCount > 0 then Some(None) else None
  }

  function Min(a: nat, b: nat): nat {
    if a < b then a else b
  }

  /** The three changes one iteration of the reconciler makes to the
      arena: append the fiber for the element at `index` (if any), tag the
      old fiber at `index` for deletion (if any, and unmatched), and link
      the new fiber as the first child or as the next sibling. */
  function AppendStep(fs0: seq<Fiber>, fs: seq<Fiber>, w: FiberId, elements: seq<Element>, ch: seq<FiberId>, index: nat): seq<Fiber>
  {
    if index < |elements| then fs + [Planned(fs0, w, elements, ch, index)] else fs
  }

  function MarkStep(fs: seq<Fiber>, ch: seq<FiberId>, index: nat, matched: bool): seq<Fiber> {
    if index < |ch| && !matched && ch[index] < |fs| then fs[ch[index] := fs[ch[index]].(tag := Deletion)] else fs
  }

  function LinkStep(fs: seq<Fiber>, w: FiberId, base: nat, index: nat, n: nat): seq<Fiber> {
    if index == 0 && w < |fs| then fs[w := fs[w].(child := if n > 0 then Some(base) else None)]
    else if 0 < index < n && base + index - 1 < |fs| then
      fs[base + index - 1 := fs[base + index - 1].(sibling := Some(base + index))]
    else fs
  }

  /** One iteration extends the chain of new fibers by the fiber for the
      element at `index`, linked behind the one before it. */
  lemma NewLinkedStep(fs0: seq<Fiber>, fs: seq<Fiber>, w: FiberId, elements: seq<Element>, ch: seq<FiberId>, index: nat, matched: bool)
    requires w < |fs0| && InRange(fs0, ch)
    requires NewLinked(fs0, fs, w, elements, ch, Min(index, |elements|))
    ensures NewLinked(fs0, LinkStep(MarkStep(AppendStep(fs0, fs, w, elements, ch, index), ch, index, matched), w, |fs0|, index, |elements|),
                      w, elements, ch, Min(index + 1, |elements|))
  {
    var base := |fs0|;
    var n := |elements|;
    var a := AppendStep(fs0, fs, w, elements, ch, index);
    var m := MarkStep(a, ch, index, matched);
    var l := LinkStep(m, w, base, index, n);
    var c := Min(index + 1, n);
    assert |a| == base + c;
    forall k | 0 <= k < c
      ensures l[base + k] == Planned(fs0, w, elements, ch, k).(sibling := if k + 1 < c then Some(base + k + 1) else None)
    {
      assert m[base + k] == a[base + k];
      if index < n && k == index {
        assert a[base + k] == Planned(fs0, w, elements, ch, k);
      } else if index < n && k + 1 == index {
        assert a[base + k] == fs[base + k];
      } else {
        assert a[base + k] == fs[base + k];
      }
    }
  }

  /** One iteration keeps the old part of the arena as described: only the
      tag of the old fiber at `index` and the child link of `w` change. */
  lemma OldKeptStep(fs0: seq<Fiber>, fs: seq<Fiber>, w: FiberId, elements: seq<Element>, ch: seq<FiberId>, index: nat, dels: seq<FiberId>)
    requires w < |fs0| && InRange(fs0, ch)
    requires index < |elements| || index < |ch|
    requires OldKept(fs0, fs, w, if index == 0 then None else ChildAfter(|fs0|, |elements|, |ch|), dels)
    ensures var matched := SameType(fs0, elements, ch, index);
      var next := dels + (if index < |ch| && !matched then [ch[index]] else []);
      OldKept(fs0, LinkStep(MarkStep(AppendStep(fs0, fs, w, elements, ch, index), ch, index, matched), w, |fs0|, index, |elements|),
              w, ChildAfter(|fs0|, |elements|, |ch|), next)
  {
    var base := |fs0|;
    var n := |elements|;
    var matched := SameType(fs0, elements, ch, index);
    var a := AppendStep(fs0, fs, w, elements, ch, index);
    var m := MarkStep(a, ch, index, matched);
    var l := LinkStep(m, w, base, index, n);
    var next := dels + (if index < |ch| && !matched then [ch[index]] else []);
    var nc := ChildAfter(base, n, |ch|);
    forall j | 0 <= j < base
      ensures l[j] == fs0[j].(tag := if j in next then Deletion else fs0[j].tag,
                              child := if j == w && nc.Some? then nc.value else fs0[j].child)
    {
      assert a[j] == fs[j];
      assert j in next <==> j in dels || (index < |ch| && !matched && j == ch[index]);
    }
  }

  /** One more iteration adds the old fiber at `index` to the deletion
      list exactly when it is unmatched. */
  lemma DeletedFibersStep(fs0: seq<Fiber>, elements: seq<Element>, ch: seq<FiberId>, index: nat)
    ensures DeletedFibers(fs0, elements, ch, Min(index + 1, |ch|)) ==
      DeletedFibers(fs0, elements, ch, Min(index, |ch|)) +
      (if index < |ch| && !SameType(fs0, elements, ch, index) then [ch[index]] else [])
  {
  }

  /** The arena after `index` iterations of the reconciler over
      `elements` against the old chain `ch`. */
  ghost function Arena(fs0: seq<Fiber>, w: FiberId, elements: seq<Element>, ch: seq<FiberId>, index: nat): seq<Fiber>
  {
    if index == 0 then fs0
    else
      var i := index - 1;
      var matched := SameType(fs0, elements, ch, i);
      LinkStep(MarkStep(AppendStep(fs0, Arena(fs0, w, elements, ch, i), w, elements, ch, i), ch, i, matched), w, |fs0|, i, |elements|)
  }

  /** What `index` iterations have built: the new fibers so far, linked,
      and the old fibers seen so far tagged as the positional plan says. */
  lemma {:induction false} ArenaShape(fs0: seq<Fiber>, w: FiberId, elements: seq<Element>, ch: seq<FiberId>, index: nat)
    requires w < |fs0| && InRange(fs0, ch)
    requires index <= |elements| || index <= |ch|
    ensures NewLinked(fs0, Arena(fs0, w, elements, ch, index), w, elements, ch, Min(index, |elements|))
    ensures OldKept(fs0, Arena(fs0, w, elements, ch, index), w, if index == 0 then None else ChildAfter(|fs0|, |elements|, |ch|),
                    DeletedFibers(fs0, elements, ch, Min(index, |ch|)))
  {
    if index > 0 {
      var i := index - 1;
      ArenaShape(fs0, w, elements, ch, i);
      var prev := Arena(fs0, w, elements, ch, i);
      var matched := SameType(fs0, elements, ch, i);
      NewLinkedStep(fs0, prev, w, elements, ch, i, matched);
      OldKeptStep(fs0, prev, w, elements, ch, i, DeletedFibers(fs0, elements, ch, Min(i, |ch|)));
      DeletedFibersStep(fs0, elements, ch, i);
    }
  }

  /** The arena's size, and the fields of old fibers that the reconciler
      never changes. */
  lemma ArenaPoints(fs0: seq<Fiber>, w: FiberId, elements: seq<Element>, ch: seq<FiberId>, index: nat, j: nat)
    requires w < |fs0| && InRange(fs0, ch)
    requires index <= |elements| || index <= |ch|
    ensures |Arena(fs0, w, elements, ch, index)| == |fs0| + Min(index, |elements|)
    ensures j < |fs0| ==> var a := Arena(fs0, w, elements, ch, index);
      a[j].ftype == fs0[j].ftype && a[j].dom == fs0[j].dom && a[j].sibling == fs0[j].sibling && a[j].parent == fs0[j].parent
  {
    ArenaShape(fs0, w, elements, ch, index);
  }

  /** An old fiber still keeps the rules after reconciliation: its links
      are unchanged, except the reconciled fiber's child link, which now
      names the first new fiber. */
  lemma OldFiberStillOk(fs0: seq<Fiber>, fs: seq<Fiber>, w: FiberId, elements: seq<Element>, ch: seq<FiberId>, dels: seq<FiberId>, i: nat)
    requires Wf(fs0) && w < |fs0| && i < |fs0|
    requires NewLinked(fs0, fs, w, elements, ch, |elements|)
    requires OldKept(fs0, fs, w, ChildAfter(|fs0|, |elements|, |ch|), dels)
    ensures FiberOk(fs, i)
  {
    var base := |fs0|;
    var n := |elements|;
    assert FiberOk(fs0, i);
    var c := fs0[i].child;
    if c.Some? { assert fs[c.value].parent == fs0[c.value].parent; }
    var sb := fs0[i].sibling;
    if sb.Some? { assert fs[sb.value].parent == fs0[sb.value].parent; }
    if i == w && n > 0 {
      var k := 0;
      assert fs[base + k] == Planned(fs0, w, elements, ch, k).(sibling := if k + 1 < n then Some(base + k + 1) else None);
    }
  }

  /** A new fiber keeps the rules: its parent is the reconciled fiber, its
      sibling is the next new fiber, and an update's alternate is older. */
  lemma NewFiberOk(fs0: seq<Fiber>, fs: seq<Fiber>, w: FiberId, elements: seq<Element>, ch: seq<FiberId>, k: nat)
    requires Wf(fs0) && w < |fs0| && InRange(fs0, ch) && k < |elements|
    requires NewLinked(fs0, fs, w, elements, ch, |elements|)
    ensures FiberOk(fs, |fs0| + k)
  {
    var base := |fs0|;
    var n := |elements|;
    assert fs[base + k] == Planned(fs0, w, elements, ch, k).(sibling := if k + 1 < n then Some(base + k + 1) else None);
    if k + 1 < n {
      var k2 := k + 1;
      assert fs[base + k2] == Planned(fs0, w, elements, ch, k2).(sibling := if k2 + 1 < n then Some(base + k2 + 1) else None);
    }
  }

  /** The reconciled arena is well formed again. */
  lemma ReconciledWf(fs0: seq<Fiber>, fs: seq<Fiber>, w: FiberId, elements: seq<Element>, ch: seq<FiberId>, dels: seq<FiberId>)
    requires Wf(fs0) && w < |fs0| && InRange(fs0, ch)
    requires NewLinked(fs0, fs, w, elements, ch, |elements|)
    requires OldKept(fs0, fs, w, ChildAfter(|fs0|, |elements|, |ch|), dels)
    ensures Wf(fs)
  {
    forall i | 0 <= i < |fs| ensures FiberOk(fs, i) {
      if i < |fs0| {
        OldFiberStillOk(fs0, fs, w, elements, ch, dels, i);
      } else {
        NewFiberOk(fs0, fs, w, elements, ch, i - |fs0|);
      }
    }
  }

  /** `ch` is the sibling chain that starts at `first`. */
  ghost predicate IsChain(fs: seq<Fiber>, ch: seq<FiberId>, first: Option<FiberId>) {
    InRange(fs, ch) &&
    first == (if |ch| > 0 then Some(ch[0]) else None) &&
    (forall k :: 0 <= k < |ch| - 1 ==> fs[ch[k]].sibling == Some(ch[k + 1])) &&
    (|ch| > 0 ==> fs[ch[|ch| - 1]].sibling == None)
  }

  function Max(a: nat, b: nat): nat {
    if a < b then b else a
  }

  /** The first part of one iteration: `sameType`, and the new fiber for
      the element at `index` (an update of the old fiber, or a placement),
      appended to the arena. */
  method BuildFiber(ghost fs0: seq<Fiber>, fs: seq<Fiber>, w: FiberId, elements: seq<Element>, ghost ch: seq<FiberId>,
                    index: nat, oldFiber: Option<FiberId>)
    returns (fs': seq<Fiber>, newFiber: Option<FiberId>, sameType: bool)
    requires oldFiber == if index < |ch| then Some(ch[index]) else None
    requires index < |ch| ==>
      ch[index] < |fs0| <= |fs| && fs[ch[index]].ftype == fs0[ch[index]].ftype && fs[ch[index]].dom == fs0[ch[index]].dom
    ensures sameType == SameType(fs0, elements, ch, index)
    ensures fs' == AppendStep(fs0, fs, w, elements, ch, index)
    ensures newFiber == if index < |elements| then Some(|fs|) else None
    ensures |fs'| == if index < |elements| then |fs| + 1 else |fs|
  {
    fs' := fs;
    newFiber := None;
    sameType := oldFiber.Some? && index < |elements| && fs[oldFiber.value].ftype == Some(elements[index].etype);
    if sameType {
      var of := fs[oldFiber.value];
      fs' := fs + [Fiber(of.ftype, elements[index].props, of.dom, Some(w), None, None, oldFiber, Update, [])];
      newFiber := Some(|fs|);
    }
    if index < |elements| && !sameType {
      fs' := fs + [Fiber(Some(elements[index].etype), elements[index].props, None, Some(w), None, None, None, Placement, [])];
      newFiber := Some(|fs|);
    }
  }

  /** The second part: an unmatched old fiber is tagged DELETION and
      queued; the cursor moves to the old fiber's sibling. */
  method MarkOld(fs: seq<Fiber>, tagged: seq<FiberId>, ghost ch: seq<FiberId>, index: nat, oldFiber: Option<FiberId>, sameType: bool)
    returns (fs': seq<Fiber>, tagged': seq<FiberId>, next: Option<FiberId>)
    requires oldFiber == if index < |ch| then Some(ch[index]) else None
    requires index < |ch| ==> ch[index] < |fs|
    ensures fs' == MarkStep(fs, ch, index, sameType) && |fs'| == |fs|
    ensures tagged' == tagged + (if index < |ch| && !sameType then [ch[index]] else [])
    ensures next == if index < |ch| then fs[ch[index]].sibling else None
  {
    fs' := fs;
    tagged' := tagged;
    next := None;
    if oldFiber.Some? && !sameType {
      fs' := fs[oldFiber.value := fs[oldFiber.value].(tag := Deletion)];
      tagged' := tagged + [oldFiber.value];
    }
    if oldFiber.Some? {
      next := fs'[oldFiber.value].sibling;
    }
  }

  /** The third part: the new fiber becomes the reconciled fiber's child
      (first iteration) or the sibling of the one before it. */
  method LinkNew(fs: seq<Fiber>, w: FiberId, ghost base: nat, index: nat, n: nat,
                 prevSibling: Option<FiberId>, newFiber: Option<FiberId>)
    returns (fs': seq<Fiber>)
    requires w < |fs|
    requires 0 < index < n ==> prevSibling == Some(base + index - 1) && base + index - 1 < |fs|
    requires newFiber == if index < n then Some(base + index) else None
    ensures fs' == LinkStep(fs, w, base, index, n)
  {
    fs' := fs;
    if index == 0 {
      fs' := fs[w := fs[w].(child := newFiber)];
    } else if index < n {
      fs' := fs[prevSibling.value := fs[prevSibling.value].(sibling := newFiber)];
    }
  }

  /** What one iteration reads from the arena built so far: the old fiber
      at the cursor is still as it was, and its sibling is the next one in
      the old chain. */
  lemma CursorFacts(fs0: seq<Fiber>, fs: seq<Fiber>, w: FiberId, elements: seq<Element>, ch: seq<FiberId>, first: Option<FiberId>, index: nat)
    requires w < |fs0| && IsChain(fs0, ch, first)
    requires index <= |elements| || index <= |ch|
    requires fs == Arena(fs0, w, elements, ch, index)
    ensures |fs| == |fs0| + Min(index, |elements|)
    ensures index < |ch| ==>
      ch[index] < |fs0| && fs[ch[index]].ftype == fs0[ch[index]].ftype && fs[ch[index]].dom == fs0[ch[index]].dom &&
      fs[ch[index]].sibling == if index + 1 < |ch| then Some(ch[index + 1]) else None
  {
    ArenaPoints(fs0, w, elements, ch, index, if index < |ch| then ch[index] else 0);
  }

  /** The loop state of `reconcileChildren` after `index` iterations: the
      cursor on the old chain, the last new fiber, the arena built so far
      and the fibers tagged so far. */
  ghost predicate LoopState(fs0: seq<Fiber>, w: FiberId, elements: seq<Element>, ch: seq<FiberId>, index: nat,
                            fs: seq<Fiber>, tagged: seq<FiberId>, oldFiber: Option<FiberId>, prevSibling: Option<FiberId>)
  {
    index <= Max(|elements|, |ch|) &&
    oldFiber == (if index < |ch| then Some(ch[index]) else None) &&
    (0 < index <= |elements| ==> prevSibling == Some(|fs0| + index - 1)) &&
    fs == Arena(fs0, w, elements, ch, index) &&
    tagged == DeletedFibers(fs0, elements, ch, Min(index, |ch|))
  }

  /** The three parts of one iteration, put together, lead from the loop
      state after `index` iterations to the state after `index + 1`. */
  lemma StepLands(fs0: seq<Fiber>, w: FiberId, elements: seq<Element>, ch: seq<FiberId>, index: nat,
                  fs: seq<Fiber>, tagged: seq<FiberId>, oldFiber: Option<FiberId>, prevSibling: Option<FiberId>,
                  fs': seq<Fiber>, tagged': seq<FiberId>, oldFiber': Option<FiberId>, prevSibling': Option<FiberId>, sameType: bool)
    requires index < |elements| || index < |ch|
    requires LoopState(fs0, w, elements, ch, index, fs, tagged, oldFiber, prevSibling)
    requires sameType == SameType(fs0, elements, ch, index)
    requires fs' == LinkStep(MarkStep(AppendStep(fs0, fs, w, elements, ch, index), ch, index, sameType), w, |fs0|, index, |elements|)
    requires tagged' == tagged + (if index < |ch| && !sameType then [ch[index]] else [])
    requires oldFiber' == if index + 1 < |ch| then Some(ch[index + 1]) else None
    requires prevSibling' == if index < |elements| then Some(|fs0| + index) else None
    ensures LoopState(fs0, w, elements, ch, index + 1, fs', tagged', oldFiber', prevSibling')
  {
    DeletedFibersStep(fs0, elements, ch, index);
  }

  /** One iteration of the loop of `reconcileChildren`, from the state
      after `index` iterations to the state after `index + 1`. */
  method ReconcileStep(fs0: seq<Fiber>, w: FiberId, elements: seq<Element>, ghost first: Option<FiberId>, ghost ch: seq<FiberId>,
                       index: nat, fs: seq<Fiber>, tagged: seq<FiberId>, oldFiber: Option<FiberId>, prevSibling: Option<FiberId>)
    returns (fs': seq<Fiber>, tagged': seq<FiberId>, oldFiber': Option<FiberId>, prevSibling': Option<FiberId>)
    requires w < |fs0| && IsChain(fs0, ch, first)
    requires index < |elements| || index < |ch|
    requires LoopState(fs0, w, elements, ch, index, fs, tagged, oldFiber, prevSibling)
    ensures LoopState(fs0, w, elements, ch, index + 1, fs', tagged', oldFiber', prevSibling')
  {
    CursorFacts(fs0, fs, w, elements, ch, first, index);
    assert |fs| == |fs0| + index || index >= |elements|;
    var appended, newFiber, sameType := BuildFiber(fs0, fs, w, elements, ch, index, oldFiber);
    assert newFiber == if index < |elements| then Some(|fs0| + index) else None;
    var marked;
    marked, tagged', oldFiber' := MarkOld(appended, tagged, ch, index, oldFiber, sameType);
    assert 0 < index < |elements| ==> prevSibling == Some(|fs0| + index - 1) && |fs0| + index - 1 < |marked|;
    fs' := LinkNew(marked, w, |fs0|, index, |elements|, prevSibling, newFiber);
    prevSibling' := newFiber;
    StepLands(fs0, w, elements, ch, index, fs, tagged, oldFiber, prevSibling, fs', tagged', oldFiber', prevSibling', sameType);
  }

  /** The loop of `reconcileChildren` over the arena as a value: walks the
      elements and the old chain starting at `first` side by side. Returns
      the new arena and the fibers it tagged for deletion, in order. */
  method ReconcileLoop(fs0: seq<Fiber>, w: FiberId, elements: seq<Element>, first: Option<FiberId>, ghost ch: seq<FiberId>)
    returns (fs: seq<Fiber>, tagged: seq<FiberId>)
    requires w < |fs0| && IsChain(fs0, ch, first)
    ensures fs == Arena(fs0, w, elements, ch, Max(|elements|, |ch|))
    ensures tagged == DeletedFibers(fs0, elements, ch, |ch|)
  {
    var index := 0;
    var oldFiber := first;
    fs := fs0;
    tagged := [];
    var prevSibling: Option<FiberId> := None;
    while index < |elements| || oldFiber.Some?
      invariant LoopState(fs0, w, elements, ch, index, fs, tagged, oldFiber, prevSibling)
      decreases Max(|elements|, |ch|) - index
    {
      fs, tagged, oldFiber, prevSibling := ReconcileStep(fs0, w, elements, first, ch, index, fs, tagged, oldFiber, prevSibling);
      index := index + 1;
    }
  }

  /** The engine's invariant, on its fields as values. */
  ghost predicate StateOk(fs: seq<Fiber>, wipRoot: Option<FiberId>, currentRoot: Option<FiberId>, nextUnit: Option<FiberId>,
                          deletions: seq<FiberId>, wipFiber: Option<FiberId>, hookIndex: nat)
  {
    Wf(fs) &&
    ValidId(fs, wipRoot) && (wipRoot.Some? ==> fs[wipRoot.value].parent.None?) &&
    ValidId(fs, currentRoot) && (currentRoot.Some? ==> fs[currentRoot.value].parent.None?) &&
    ValidId(fs, nextUnit) &&
    (forall d :: d in deletions ==> d < |fs| && fs[d].parent.Some? && fs[d].tag == Deletion) &&
    (wipFiber.Some? ==> wipFiber.value < |fs| && hookIndex == |fs[wipFiber.value].hooks|)
  }

  /** What `reconcileChildren(w, elements)` makes of the arena `fs0` and
      the deletion list `ds0`: one new fiber per element, linked in
      element order; the old fibers unchanged but for the DELETION tags of
      the unmatched ones and the child link of `w`; and those unmatched
      fibers appended to the deletion list, in chain order. */
  ghost predicate Reconciled(fs0: seq<Fiber>, ds0: seq<FiberId>, w: FiberId, elements: seq<Element>, fs: seq<Fiber>, ds: seq<FiberId>)
    requires Wf(fs0) && w < |fs0|
  {
    var ch := Chain(fs0, AltChild(fs0, w));
    var dels := DeletedFibers(fs0, elements, ch, |ch|);
    NewLinked(fs0, fs, w, elements, ch, |elements|) &&
    OldKept(fs0, fs, w, ChildAfter(|fs0|, |elements|, |ch|), dels) &&
    ds == ds0 + dels
  }

  /** The arena and the deletion list `reconcileChildren(w, elements)`
      leaves, computed from `fs0` and `ds0`: the reconciler's iterations
      over the elements and the old child chain, and the unmatched old
      fibers appended to the deletion list. */
  ghost function Reconcile(fs0: seq<Fiber>, ds0: seq<FiberId>, w: FiberId, elements: seq<Element>): (seq<Fiber>, seq<FiberId>)
    requires Wf(fs0) && w < |fs0|
  {
    var ch := Chain(fs0, AltChild(fs0, w));
    (Arena(fs0, w, elements, ch, Max(|elements|, |ch|)), ds0 + DeletedFibers(fs0, elements, ch, |ch|))
  }

  /** The computed reconciliation is the one `Reconciled` describes. */
  lemma ReconcileMeans(fs0: seq<Fiber>, ds0: seq<FiberId>, w: FiberId, elements: seq<Element>)
    requires Wf(fs0) && w < |fs0|
    ensures var r := Reconcile(fs0, ds0, w, elements);
      Reconciled(fs0, ds0, w, elements, r.0, r.1)
  {
    var ch := Chain(fs0, AltChild(fs0, w));
    ArenaFinal(fs0, Reconcile(fs0, ds0, w, elements).0, w, elements, ch);
  }

  /** What the host branch of a unit of work on fiber `f` makes of `fs0`
      and `ds0`: `f` gets the host node `node` if it had none, and then
      its children are reconciled. */
  ghost predicate HostWorked(fs0: seq<Fiber>, ds0: seq<FiberId>, f: FiberId, node: HostRef, fs: seq<Fiber>, ds: seq<FiberId>)
    requires f < |fs0|
  {
    var g := fs0[f];
    var fs1 := if g.dom.None? then fs0[f := g.(dom := Some(node))] else fs0;
    Wf(fs1) && Reconcile(fs1, ds0, f, g.props.children) == (fs, ds)
  }

  /** What the component branch of a unit of work on fiber `f` makes of
      `fs0` and `ds0`, given the record `t` of the component's hook calls:
      `f` gets the hooks of `t`; when no call threw, the element the
      component returns is reconciled as the only child of `f`. */
  ghost predicate ComponentWorked(fs0: seq<Fiber>, ds0: seq<FiberId>, f: FiberId, comp: Component, t: Trace,
                                  fs: seq<Fiber>, ds: seq<FiberId>)
    requires f < |fs0|
  {
    var fs1 := fs0[f := fs0[f].(hooks := t.hooks)];
    if t.failed then fs == fs1 && ds == ds0
    else Wf(fs1) && Reconcile(fs1, ds0, f, [comp.view(fs0[f].props, t.results)]) == (fs, ds)
  }

  /** What reconciling the children of `w` leaves behind: the new fibers
      linked in element order, the old ones unchanged but for the deletion
      tags and the child link of `w`, and the engine invariant kept. */
  lemma ReconcileOutcome(fs0: seq<Fiber>, fs: seq<Fiber>, w: FiberId, elements: seq<Element>, ch: seq<FiberId>,
                         wipRoot: Option<FiberId>, currentRoot: Option<FiberId>, nextUnit: Option<FiberId>,
                         ds0: seq<FiberId>, ds: seq<FiberId>, wipFiber: Option<FiberId>, hookIndex: nat)
    requires StateOk(fs0, wipRoot, currentRoot, nextUnit, ds0, wipFiber, hookIndex)
    requires w < |fs0| && ch == Chain(fs0, AltChild(fs0, w))
    requires fs == Arena(fs0, w, elements, ch, Max(|elements|, |ch|))
    requires ds == ds0 + DeletedFibers(fs0, elements, ch, |ch|)
    ensures NewLinked(fs0, fs, w, elements, ch, |elements|)
    ensures OldKept(fs0, fs, w, ChildAfter(|fs0|, |elements|, |ch|), DeletedFibers(fs0, elements, ch, |ch|))
    ensures StateOk(fs, wipRoot, currentRoot, nextUnit, ds, wipFiber, hookIndex)
  {
    ArenaFinal(fs0, fs, w, elements, ch);
    ReconcileKeepsState(fs0, fs, w, elements, ch, wipRoot, currentRoot, nextUnit, ds0, ds, wipFiber, hookIndex);
  }

  /** Once both the elements and the old chain are used up, every new
      fiber is built and every unmatched old fiber tagged. */
  lemma ArenaFinal(fs0: seq<Fiber>, fs: seq<Fiber>, w: FiberId, elements: seq<Element>, ch: seq<FiberId>)
    requires w < |fs0| && InRange(fs0, ch)
    requires fs == Arena(fs0, w, elements, ch, Max(|elements|, |ch|))
    ensures NewLinked(fs0, fs, w, elements, ch, |elements|)
    ensures OldKept(fs0, fs, w, ChildAfter(|fs0|, |elements|, |ch|), DeletedFibers(fs0, elements, ch, |ch|))
  {
    var index := Max(|elements|, |ch|);
    ArenaShape(fs0, w, elements, ch, index);
    assert Min(index, |elements|) == |elements| && Min(index, |ch|) == |ch|;
  }

  /** The fibers `lo .. hi`, each linked to the next, form the sibling
      chain that starts at `lo`. */
  lemma {:induction false} LinkedRun(fs: seq<Fiber>, lo: nat, hi: nat)
    requires Wf(fs) && lo < hi <= |fs|
    requires forall i :: lo <= i < hi ==> fs[i].sibling == if i + 1 < hi then Some(i + 1) else None
    ensures |Chain(fs, Some(lo))| == hi - lo
    ensures forall j :: 0 <= j < hi - lo ==> Chain(fs, Some(lo))[j] == lo + j
    decreases hi - lo
  {
    assert FiberOk(fs, lo);
    var rest := Chain(fs, fs[lo].sibling);
    assert Chain(fs, Some(lo)) == [lo] + rest;
    if lo + 1 < hi {
      LinkedRun(fs, lo + 1, hi);
    } else {
      assert rest == [];
    }
  }

  /** The k-th new fiber carries the k-th element's type and props and
      has `w` as parent; it is an UPDATE, sharing the host node of the old
      fiber at position k as its alternate, exactly when that old fiber
      has the element's type, and otherwise a PLACEMENT with no host node
      and no alternate. */
  lemma NewFiberFields(fs0: seq<Fiber>, fs: seq<Fiber>, w: FiberId, elements: seq<Element>, ch: seq<FiberId>, k: nat)
    requires k < |elements| && NewLinked(fs0, fs, w, elements, ch, |elements|)
    ensures var c := |fs0| + k;
      fs[c].ftype == Some(elements[k].etype) && fs[c].props == elements[k].props && fs[c].parent == Some(w) &&
      (fs[c].tag == Update <==> SameType(fs0, elements, ch, k)) &&
      (fs[c].tag == Update ==> fs[c].alternate == Some(ch[k]) && fs[c].dom == fs0[ch[k]].dom) &&
      (fs[c].tag != Update ==> fs[c].tag == Placement && fs[c].alternate.None? && fs[c].dom.None?)
  {
    var n := |elements|;
    assert fs[|fs0| + k] == Planned(fs0, w, elements, ch, k).(sibling := if k + 1 < n then Some(|fs0| + k + 1) else None);
  }

  /** After reconciling `elements` into `w`, the child chain of `w` is the
      new fibers, one per element and in element order; with no elements
      and an old chain to replace, `w` has no child. */
  lemma ReconciledChildChain(fs0: seq<Fiber>, fs: seq<Fiber>, w: FiberId, elements: seq<Element>, ch: seq<FiberId>, dels: seq<FiberId>)
    requires Wf(fs) && w < |fs0|
    requires NewLinked(fs0, fs, w, elements, ch, |elements|)
    requires OldKept(fs0, fs, w, ChildAfter(|fs0|, |elements|, |ch|), dels)
    ensures |elements| > 0 ==> fs[w].child == Some(|fs0|)
    ensures |elements| == 0 && |ch| > 0 ==> fs[w].child.None?
    ensures |elements| > 0 ==> |Chain(fs, fs[w].child)| == |elements|
    ensures forall k :: 0 <= k < |elements| ==> Chain(fs, fs[w].child)[k] == |fs0| + k
  {
    var n := |elements|;
    var base := |fs0|;
    if n > 0 {
      assert fs[w] == fs0[w].(tag := fs[w].tag, child := Some(base));
      forall i | base <= i < base + n
        ensures fs[i].sibling == if i + 1 < base + n then Some(i + 1) else None
      {
        var j := i - base;
        assert fs[base + j] == Planned(fs0, w, elements, ch, j).(sibling := if j + 1 < n then Some(base + j + 1) else None);
      }
      LinkedRun(fs, base, base + n);
    }
  }

  /** Reconciling keeps the engine invariant. */
  lemma ReconcileKeepsState(fs0: seq<Fiber>, fs: seq<Fiber>, w: FiberId, elements: seq<Element>, ch: seq<FiberId>,
                            wipRoot: Option<FiberId>, currentRoot: Option<FiberId>, nextUnit: Option<FiberId>,
                            ds0: seq<FiberId>, ds: seq<FiberId>, wipFiber: Option<FiberId>, hookIndex: nat)
    requires StateOk(fs0, wipRoot, currentRoot, nextUnit, ds0, wipFiber, hookIndex)
    requires w < |fs0| && ch == Chain(fs0, AltChild(fs0, w))
    requires NewLinked(fs0, fs, w, elements, ch, |elements|)
    requires OldKept(fs0, fs, w, ChildAfter(|fs0|, |elements|, |ch|), DeletedFibers(fs0, elements, ch, |ch|))
    requires ds == ds0 + DeletedFibers(fs0, elements, ch, |ch|)
    ensures StateOk(fs, wipRoot, currentRoot, nextUnit, ds, wipFiber, hookIndex)
  {
    var dels := DeletedFibers(fs0, elements, ch, |ch|);
    ReconciledWf(fs0, fs, w, elements, ch, dels);
    forall d | d in ds ensures d < |fs| && fs[d].parent.Some? && fs[d].tag == Deletion {
      QueuedStillTagged(fs0, fs, w, elements, ch, ds0, d);
    }
  }

  /** A fiber queued for deletion, before or by this reconciliation, is
      an old child fiber tagged DELETION. */
  lemma QueuedStillTagged(fs0: seq<Fiber>, fs: seq<Fiber>, w: FiberId, elements: seq<Element>, ch: seq<FiberId>, ds0: seq<FiberId>, d: FiberId)
    requires Wf(fs0) && w < |fs0| && ch == Chain(fs0, AltChild(fs0, w))
    requires OldKept(fs0, fs, w, ChildAfter(|fs0|, |elements|, |ch|), DeletedFibers(fs0, elements, ch, |ch|))
    requires forall d :: d in ds0 ==> d < |fs0| && fs0[d].parent.Some? && fs0[d].tag == Deletion
    requires d in ds0 + DeletedFibers(fs0, elements, ch, |ch|)
    ensures d < |fs| && fs[d].parent.Some? && fs[d].tag == Deletion
  {
    var dels := DeletedFibers(fs0, elements, ch, |ch|);
    ChainShape(fs0, AltChild(fs0, w));
    if d in dels {
      var p :| 0 <= p < |ch| && ch[p] == d && !SameType(fs0, elements, ch, p);
      assert fs0[ch[p]].parent == fs0[ch[0]].parent;
    }
  }

  /** Replacing the hook list of one fiber keeps the engine invariant,
      provided the hook cursor still counts the wip fiber's hooks. */
  lemma SetHooksKeepsState(fs: seq<Fiber>, wipRoot: Option<FiberId>, currentRoot: Option<FiberId>, nextUnit: Option<FiberId>,
                           ds: seq<FiberId>, wipFiber: Option<FiberId>, hookIndex: nat, i: FiberId, hs: seq<Hook>, hookIndex': nat)
    requires StateOk(fs, wipRoot, currentRoot, nextUnit, ds, wipFiber, hookIndex) && i < |fs|
    requires wipFiber == Some(i) ==> hookIndex' == |hs|
    requires wipFiber.Some? && wipFiber != Some(i) ==> hookIndex' == hookIndex
    ensures StateOk(fs[i := fs[i].(hooks := hs)], wipRoot, currentRoot, nextUnit, ds, wipFiber, hookIndex')
  {
    var gs := fs[i := fs[i].(hooks := hs)];
    forall j | 0 <= j < |gs| ensures FiberOk(gs, j) {
      assert FiberOk(fs, j);
    }
  }

  /** The host calls `createDom` makes for a host fiber of tag `tag`: a
      text node holding the `nodeValue` prop for the text tag, an element
      node otherwise, then every property and listener of the props set
      against an empty previous set. */
  function CreateOps(node: HostRef, tag: string, attrs: seq<Prop>): (r: seq<HostOp>)
    ensures |r| > 0 && r[0].node == node && (r[0].CreateTextNode? <==> tag == TextElement)
    ensures forall k :: 1 <= k < |r| ==> r[k] in PropDiff.UpdateDom(node, [], attrs)
  {
    (if tag == TextElement then [CreateTextNode(node, Get(attrs, NodeValueKey))] else [CreateElementNode(node, tag)]) +
    PropDiff.UpdateDom(node, [], attrs)
  }

  /** `createDom` creates exactly one host node, first, and then only sets
      properties and adds listeners on it. */
  lemma CreateOpsShape(node: HostRef, tag: string, attrs: seq<Prop>)
    ensures var ops := CreateOps(node, tag, attrs);
      |ops| > 0 && (ops[0].CreateTextNode? || ops[0].CreateElementNode?) && ops[0].node == node &&
      (forall k :: 1 <= k < |ops| ==> (ops[k].SetProp? || ops[k].AddListener?) && ops[k].node == node)
  {
    var ops := CreateOps(node, tag, attrs);
    var rest := PropDiff.UpdateDom(node, [], attrs);
    PropDiff.FromEmptyOnlyAdds(node, attrs);
    forall k | 1 <= k < |ops| ensures (ops[k].SetProp? || ops[k].AddListener?) && ops[k].node == node {
      assert ops[k] == rest[k - 1];
      assert rest[k - 1] in rest;
    }
  }

  /** `createDom` sets every property and adds every listener of the
      props. */
  lemma CreateOpsSetsAll(node: HostRef, tag: string, attrs: seq<Prop>)
    ensures forall key, v :: PropDiff.IsProperty(key) && Get(attrs, key) == Some(v) ==> SetProp(node, key, v) in CreateOps(node, tag, attrs)
    ensures forall key, h :: PropDiff.IsEvent(key) && Get(attrs, key) == Some(h) ==> AddListener(node, key, h) in CreateOps(node, tag, attrs)
  {
    PropDiff.UpdateDomFromEmpty(node, attrs);
  }

  /** The arena after `setState(action)` pushes onto the queue of the state
      hook at `addr`. */
  function Enqueue(fs: seq<Fiber>, addr: HookAddr, action: Action): (r: seq<Fiber>)
    requires addr.fiber < |fs| && addr.index < |fs[addr.fiber].hooks| && fs[addr.fiber].hooks[addr.index].StateHook?
    ensures |r| == |fs|
  {
    var f := fs[addr.fiber];
    var h := f.hooks[addr.index];
    fs[addr.fiber := f.(hooks := f.hooks[addr.index := h.(queue := h.queue + [action])])]
  }

  /** An action pushed by the setter is applied after every action queued
      before it, on the next render that reads this hook. */
  lemma EnqueuedActionApplied(fs: seq<Fiber>, addr: HookAddr, action: Action, initial: Value)
    requires addr.fiber < |fs| && addr.index < |fs[addr.fiber].hooks| && fs[addr.fiber].hooks[addr.index].StateHook?
    ensures var h := fs[addr.fiber].hooks[addr.index];
      StateFrom(Some(Enqueue(fs, addr, action)[addr.fiber].hooks[addr.index]), initial) ==
        Some(action(ApplyActions(h.queue, h.state)))
  {
    var h := fs[addr.fiber].hooks[addr.index];
    ApplyActionsAppend(h.queue, [action], h.state);
    ApplySingle(action, ApplyActions(h.queue, h.state));
  }

  /** How a hook primitive ended: with a result for the component, or with
      the exception the source throws when a hook of another kind sits at
      the same call-order index. */
  datatype HookOutcome = Produced(result: HookResult) | UsageError

  /** How one unit of work ended. */
  datatype Step = Next(next: Option<FiberId>) | Crashed

  /** `wipFiber.alternate.hooks[hookIndex]`. */
  function OldHook(fs: seq<Fiber>, w: FiberId, index: nat): Option<Hook>
    requires w < |fs|
  {
    var a := fs[w].alternate;
    if a.Some? && a.value < |fs| && index < |fs[a.value].hooks| then Some(fs[a.value].hooks[index]) else None
  }

  /** Changing the hook list of the wip fiber does not change the old
      hooks it reads, which belong to its alternate. */
  lemma OldHookOfOwnHooks(fs: seq<Fiber>, w: FiberId, hs: seq<Hook>, index: nat)
    requires w < |fs| && fs[w].alternate != Some(w)
    ensures OldHook(fs[w := fs[w].(hooks := hs)], w, index) == OldHook(fs, w, index)
  {
  }

  /** What one hook call does: it throws (the source reads a field of an
      old hook of another kind), or it hands a result back, appends a
      hook, and runs effects or creates ref cells. */
  datatype HookStep = Failed | Stepped(result: HookResult, hook: Hook, ran: seq<EffectId>, newCells: seq<Value>)

  /** The hook call `call` at address `addr`, given the old hook at that
      index and the number of ref cells so far. */
  function RunHook(call: HookCall, oldHook: Option<Hook>, addr: HookAddr, cellCount: nat): (r: HookStep)
    ensures r.Failed? ==> oldHook.Some? && !call.UseRefCall?
    ensures r.Stepped? ==>
      (r.hook.StateHook? <==> call.UseStateCall?) && (r.hook.EffectHook? <==> call.UseEffectCall?) &&
      (r.hook.StateHook? ==> r.hook.queue == []) &&
      |r.ran| <= 1 && (r.newCells != [] ==> call.UseRefCall? && oldHook.None? && r.newCells == [call.initial])
  {
    match call
    case UseStateCall(initial) =>
      (match StateFrom(oldHook, initial)
       case None => Failed
       case Some(v) => Stepped(StateResult(v, addr), StateHook(v, []), [], []))
    case UseEffectCall(effect, deps) =>
      (match EffectChanged(deps, oldHook)
       case None => Failed
       case Some(changed) => Stepped(EffectResult, EffectHook(deps), if changed then [effect] else [], []))
    case UseRefCall(initial) =>
      var ref := if oldHook.Some? then RefFrom(oldHook.value) else Some(cellCount);
      Stepped(RefResult(ref), RefHook(ref), [], if oldHook.Some? then [] else [initial])
  }

  /** The record of a component's hook calls: the results handed back,
      the hooks appended, the effects run and the ref cells created, in
      call order; `failed` once a call has thrown. */
  datatype Trace = Trace(results: seq<HookResult>, hooks: seq<Hook>, ran: seq<EffectId>, newCells: seq<Value>, failed: bool)

  /** The first `n` hook calls of `comp` rendering the wip fiber `w` with
      `props`: each call is chosen from the results before it and reads
      the old hook at its own index; nothing is called after a throw. */
  function RunHooks(comp: Component, props: Props, fs: seq<Fiber>, w: FiberId, cellCount: nat, n: nat): (t: Trace)
    requires w < |fs|
    ensures |t.results| == |t.hooks| <= n
    ensures !t.failed ==> |t.results| == n
  {
    if n == 0 then Trace([], [], [], [], false)
    else
      var t := RunHooks(comp, props, fs, w, cellCount, n - 1);
      if t.failed then t
      else
        match RunHook(comp.call(props, t.results), OldHook(fs, w, n - 1), HookAddr(w, n - 1), cellCount + |t.newCells|)
        case Failed => t.(failed := true)
        case Stepped(r, h, ran, nc) => Trace(t.results + [r], t.hooks + [h], t.ran + ran, t.newCells + nc, false)
  }

  /** Once a hook call has thrown, no later call changes the record. */
  lemma {:induction false} RunHooksStopsAtThrow(comp: Component, props: Props, fs: seq<Fiber>, w: FiberId, cellCount: nat, n: nat, m: nat)
    requires w < |fs| && n <= m && RunHooks(comp, props, fs, w, cellCount, n).failed
    ensures RunHooks(comp, props, fs, w, cellCount, m) == RunHooks(comp, props, fs, w, cellCount, n)
    decreases m
  {
    if m > n {
      RunHooksStopsAtThrow(comp, props, fs, w, cellCount, n, m - 1);
    }
  }

  /** Where a component call stands after hook calls that gave `results`,
      none of which threw: the arena `fs0` with the wip fiber `w` holding
      the hooks those calls appended, and the effects run and ref cells
      created by them after `effects0` and `cells0`. */
  ghost predicate HooksSoFar(comp: Component, props: Props, fs0: seq<Fiber>, w: FiberId, effects0: seq<EffectId>, cells0: seq<Value>,
                             results: seq<HookResult>, fs: seq<Fiber>, effects: seq<EffectId>, cells: seq<Value>)
    requires w < |fs0|
  {
    var t := RunHooks(comp, props, fs0, w, |cells0|, |results|);
    !t.failed && results == t.results && fs == fs0[w := fs0[w].(hooks := t.hooks)] &&
    effects == effects0 + t.ran && cells == cells0 + t.newCells
  }

  /** A hook call that hands a result back moves the call on by one. */
  lemma HooksSoFarNext(comp: Component, props: Props, fs0: seq<Fiber>, w: FiberId, effects0: seq<EffectId>, cells0: seq<Value>,
                       results: seq<HookResult>, fs: seq<Fiber>, effects: seq<EffectId>, cells: seq<Value>, step: HookStep)
    requires w < |fs0| && fs0[w].alternate != Some(w)
    requires HooksSoFar(comp, props, fs0, w, effects0, cells0, results, fs, effects, cells)
    requires step == RunHook(comp.call(props, results), OldHook(fs, w, |results|), HookAddr(w, |results|), |cells|)
    requires step.Stepped?
    ensures HooksSoFar(comp, props, fs0, w, effects0, cells0, results + [step.result],
                       fs[w := fs[w].(hooks := fs[w].hooks + [step.hook])], effects + step.ran, cells + step.newCells)
  {
    var t := RunHooks(comp, props, fs0, w, |cells0|, |results|);
    OldHookOfOwnHooks(fs0, w, t.hooks, |results|);
  }

  /** A hook call that throws fixes the record of the whole call. */
  lemma HooksSoFarThrow(comp: Component, props: Props, fs0: seq<Fiber>, w: FiberId, effects0: seq<EffectId>, cells0: seq<Value>,
                        results: seq<HookResult>, fs: seq<Fiber>, effects: seq<EffectId>, cells: seq<Value>, n: nat)
    requires w < |fs0| && fs0[w].alternate != Some(w) && |results| < n
    requires HooksSoFar(comp, props, fs0, w, effects0, cells0, results, fs, effects, cells)
    requires RunHook(comp.call(props, results), OldHook(fs, w, |results|), HookAddr(w, |results|), |cells|).Failed?
    ensures var t := RunHooks(comp, props, fs0, w, |cells0|, n);
      t.failed && results == t.results && fs == fs0[w := fs0[w].(hooks := t.hooks)] &&
      effects == effects0 + t.ran && cells == cells0 + t.newCells
  {
    var t := RunHooks(comp, props, fs0, w, |cells0|, |results|);
    OldHookOfOwnHooks(fs0, w, t.hooks, |results|);
    RunHooksStopsAtThrow(comp, props, fs0, w, |cells0|, |results| + 1, n);
  }

  /** Starting work on fiber `f` with an empty hook list keeps the engine
      invariant. */
  lemma StartWorkKeepsState(fs: seq<Fiber>, wipRoot: Option<FiberId>, currentRoot: Option<FiberId>, nextUnit: Option<FiberId>,
                            ds: seq<FiberId>, wipFiber: Option<FiberId>, hookIndex: nat, f: FiberId)
    requires StateOk(fs, wipRoot, currentRoot, nextUnit, ds, wipFiber, hookIndex) && f < |fs|
    ensures StateOk(fs[f := fs[f].(hooks := [])], wipRoot, currentRoot, nextUnit, ds, Some(f), 0)
  {
    var gs := fs[f := fs[f].(hooks := [])];
    forall j | 0 <= j < |gs| ensures FiberOk(gs, j) {
      assert FiberOk(fs, j);
    }
  }

  /** Giving fiber `f` a host node keeps the engine invariant. */
  lemma SetDomKeepsState(fs: seq<Fiber>, wipRoot: Option<FiberId>, currentRoot: Option<FiberId>, nextUnit: Option<FiberId>,
                         ds: seq<FiberId>, wipFiber: Option<FiberId>, hookIndex: nat, f: FiberId, node: HostRef)
    requires StateOk(fs, wipRoot, currentRoot, nextUnit, ds, wipFiber, hookIndex) && f < |fs|
    ensures StateOk(fs[f := fs[f].(dom := Some(node))], wipRoot, currentRoot, nextUnit, ds, wipFiber, hookIndex)
  {
    var gs := fs[f := fs[f].(dom := Some(node))];
    forall j | 0 <= j < |gs| ensures FiberOk(gs, j) {
      assert FiberOk(fs, j);
    }
  }

  /** `typeof fiber.type === 'function'`. */
  predicate IsComponent(g: Fiber) {
    g.ftype.Some? && g.ftype.value.Component?
  }

  /** The host calls one unit of work makes: the `createDom` calls for a
      host fiber that has no node yet, with `node` the next free node, and
      nothing for any other fiber. */
  function RenderOps(g: Fiber, node: HostRef): seq<HostOp> {
    if g.dom.None? && g.ftype.Some? && g.ftype.value.Host? then CreateOps(node, g.ftype.value.tag, g.props.attrs) else []
  }

  /** The cursor step at the end of `performUnitOfWork`: the child if there
      is one, else the sibling of the nearest fiber, going up from `f`,
      that has one. */
  method NextFiber(fs: seq<Fiber>, f: FiberId) returns (next: Option<FiberId>)
    requires Wf(fs) && f < |fs|
    ensures next == NextUnit(fs, f)
  {
    if fs[f].child.Some? {
      return fs[f].child;
    }
    var cur: Option<FiberId> := Some(f);
    while cur.Some?
      invariant cur.Some? ==> cur.value < |fs| && SiblingUp(fs, cur.value) == SiblingUp(fs, f)
      invariant cur.None? ==> SiblingUp(fs, f).None?
      decreases if cur.Some? then cur.value + 1 else 0
    {
      var c := cur.value;
      if fs[c].sibling.Some? {
        return fs[c].sibling;
      }
      assert FiberOk(fs, c);
      cur := fs[c].parent;
    }
    next := None;
  }

  /** The parts of the engine a unit of work reads and changes. */
  datatype Snapshot = Snapshot(fibers: seq<Fiber>, deletions: seq<FiberId>, cells: seq<Value>,
                               effectsRun: seq<EffectId>, log: seq<HostOp>, nextRef: HostRef)

  /** One performed unit of work: the fiber, the engine before and after,
      and how the unit ended. */
  datatype UnitRun = UnitRun(fiber: FiberId, before: Snapshot, after: Snapshot, step: Step)

  /** What `performUnitOfWork(fiber)` does: the fiber's hooks are reset;
      a component fiber is called, and its element reconciled as the only
      child unless a hook call threw, which is the only way the unit
      crashes; a host fiber gets the next fresh host node if it has none,
      and its children are reconciled. The only host calls are the
      `createDom` ones, and the next unit is the cursor's next fiber. */
  ghost predicate UnitDone(comps: nat -> Component, u: UnitRun) {
    var f, s0, s := u.fiber, u.before, u.after;
    f < |s0.fibers| &&
    var g := s0.fibers[f];
    var fs0 := s0.fibers[f := g.(hooks := [])];
    (if IsComponent(g) then
       var comp := comps(g.ftype.value.id);
       var t := RunHooks(comp, g.props, fs0, f, |s0.cells|, comp.hookCount);
       ComponentWorked(fs0, s0.deletions, f, comp, t, s.fibers, s.deletions) &&
       (u.step.Crashed? <==> t.failed) &&
       s.effectsRun == s0.effectsRun + t.ran && s.cells == s0.cells + t.newCells && s.nextRef == s0.nextRef
     else
       HostWorked(fs0, s0.deletions, f, s0.nextRef, s.fibers, s.deletions) && u.step.Next? &&
       s.effectsRun == s0.effectsRun && s.cells == s0.cells &&
       s.nextRef == s0.nextRef + (if g.dom.None? then 1 else 0)) &&
    s.log == s0.log + RenderOps(g, s0.nextRef) &&
    (u.step.Next? ==> Wf(s.fibers) && f < |s.fibers| && u.step.next == NextUnit(s.fibers, f))
  }

  /** A unit of work, read fiber by fiber: a component unit whose hook
      calls threw only gives `f` the hooks of the trace; otherwise the
      unit's reconciliation is the one `Reconciled` describes, of the
      element the component returned or of the host fiber's children. */
  lemma UnitDoneMeans(comps: nat -> Component, u: UnitRun)
    requires UnitDone(comps, u)
    ensures var f, s0, s := u.fiber, u.before, u.after;
      var g := s0.fibers[f];
      var fs0 := s0.fibers[f := g.(hooks := [])];
      if IsComponent(g) then
        var comp := comps(g.ftype.value.id);
        var t := RunHooks(comp, g.props, fs0, f, |s0.cells|, comp.hookCount);
        var fs1 := fs0[f := fs0[f].(hooks := t.hooks)];
        (t.failed ==> s.fibers == fs1 && s.deletions == s0.deletions) &&
        (!t.failed ==> Wf(fs1) && Reconciled(fs1, s0.deletions, f, [comp.view(g.props, t.results)], s.fibers, s.deletions))
      else
        var fs1 := if g.dom.None? then fs0[f := fs0[f].(dom := Some(s0.nextRef))] else fs0;
        Wf(fs1) && Reconciled(fs1, s0.deletions, f, g.props.children, s.fibers, s.deletions)
  {
    var f, s0 := u.fiber, u.before;
    var g := s0.fibers[f];
    var fs0 := s0.fibers[f := g.(hooks := [])];
    if IsComponent(g) {
      var comp := comps(g.ftype.value.id);
      var t := RunHooks(comp, g.props, fs0, f, |s0.cells|, comp.hookCount);
      var fs1 := fs0[f := fs0[f].(hooks := t.hooks)];
      if !t.failed {
        ReconcileMeans(fs1, s0.deletions, f, [comp.view(g.props, t.results)]);
      }
    } else {
      var fs1 := if g.dom.None? then fs0[f := fs0[f].(dom := Some(s0.nextRef))] else fs0;
      ReconcileMeans(fs1, s0.deletions, f, g.props.children);
    }
  }

  /** The engine after the units `units`, started from `s0`. */
  function EndOf(s0: Snapshot, units: seq<UnitRun>): Snapshot {
    if |units| == 0 then s0 else units[|units| - 1].after
  }

  /** `units` is a run of units of work from the engine `s0` with the
      cursor at `first`: every unit does what `UnitDone` says; the first
      starts from `s0` at `first`; every later one starts where the one
      before it ended, at the fiber that unit's step moved the cursor to. */
  ghost predicate UnitsChain(comps: nat -> Component, first: Option<FiberId>, s0: Snapshot, units: seq<UnitRun>) {
    (forall k {:trigger UnitDone(comps, units[k])} :: 0 <= k < |units| ==> UnitDone(comps, units[k])) &&
    (|units| > 0 ==> Some(units[0].fiber) == first && units[0].before == s0) &&
    (forall k :: 0 <= k < |units| - 1 ==> units[k].step == Next(Some(units[k + 1].fiber)) && units[k + 1].before == units[k].after)
  }

  /** A unit performed where a run ends, at the fiber its cursor points
      to, extends the run. */
  lemma UnitsChainExtend(comps: nat -> Component, first: Option<FiberId>, s0: Snapshot, units: seq<UnitRun>, u: UnitRun)
    requires UnitsChain(comps, first, s0, units) && UnitDone(comps, u)
    requires |units| == 0 ==> Some(u.fiber) == first
    requires |units| > 0 ==> units[|units| - 1].step == Next(Some(u.fiber))
    requires u.before == EndOf(s0, units)
    ensures UnitsChain(comps, first, s0, units + [u]) && EndOf(s0, units + [u]) == u.after
  {
    var us := units + [u];
    forall k | 0 <= k < |us| ensures UnitDone(comps, us[k]) {
      if k < |units| {
        assert us[k] == units[k];
      }
    }
  }

  class Engine {
    /** Every fiber ever built, of every generation. */
    var fibers: seq<Fiber>
    var wipRoot: Option<FiberId>
    var currentRoot: Option<FiberId>
    var nextUnit: Option<FiberId>
    var wipFiber: Option<FiberId>
    var hookIndex: nat
    var deletions: seq<FiberId>
    /** Calls made into the host renderer, oldest first. */
    var log: seq<HostOp>
    /** The next fresh host node handle. */
    var nextRef: HostRef
    /** The ref objects (`{ current }`) created by `useRef`. */
    var cells: seq<Value>
    /** The effects run, in order. */
    var effectsRun: seq<EffectId>

    ghost predicate Valid()
      reads this`fibers, this`wipRoot, this`currentRoot, this`nextUnit, this`deletions, this`wipFiber, this`hookIndex
    {
      StateOk(fibers, wipRoot, currentRoot, nextUnit, deletions, wipFiber, hookIndex)
    }

    ghost function Snap(): Snapshot
      reads this`fibers, this`deletions, this`cells, this`effectsRun, this`log, this`nextRef
    {
      Snapshot(fibers, deletions, cells, effectsRun, log, nextRef)
    }

    /** The engine at load time. The host nodes that exist already, such
        as the container, have the handles below `hostNodes`. */
    constructor (hostNodes: nat)
      ensures Valid()
      ensures fibers == [] && wipRoot.None? && currentRoot.None? && nextUnit.None? && wipFiber.None?
      ensures deletions == [] && log == [] && cells == [] && effectsRun == [] && nextRef == hostNodes
    {
      fibers := [];
      wipRoot := None;
      currentRoot := None;
      nextUnit := None;
      wipFiber := None;
      hookIndex := 0;
      deletions := [];
      log := [];
      nextRef := hostNodes;
      cells := [];
      effectsRun := [];
    }

    /** The engine after `ReconcileChildren(w, elements)` from `fs0` and
        `ds0`: the reconciled arena and the engine invariant. */
    lemma ReconciledState(fs0: seq<Fiber>, ds0: seq<FiberId>, w: FiberId, elements: seq<Element>, ch: seq<FiberId>)
      requires StateOk(fs0, wipRoot, currentRoot, nextUnit, ds0, wipFiber, hookIndex)
      requires w < |fs0| && ch == Chain(fs0, AltChild(fs0, w))
      requires fibers == Arena(fs0, w, elements, ch, Max(|elements|, |ch|))
      requires deletions == ds0 + DeletedFibers(fs0, elements, ch, |ch|)
      ensures Valid()
      ensures NewLinked(fs0, fibers, w, elements, ch, |elements|)
      ensures OldKept(fs0, fibers, w, ChildAfter(|fs0|, |elements|, |ch|), DeletedFibers(fs0, elements, ch, |ch|))
    {
      ReconcileOutcome(fs0, fibers, w, elements, ch, wipRoot, currentRoot, nextUnit, ds0, deletions, wipFiber, hookIndex);
    }

    /** `reconcileChildren(wipFiber, elements)`: walks the new elements and
        the old child chain side by side, building one new fiber per
        element and tagging every unmatched old fiber for deletion. */
    method ReconcileChildren(w: FiberId, elements: seq<Element>)
      requires Valid() && w < |fibers|
      modifies this`fibers, this`deletions
      ensures Valid()
      ensures Reconciled(old(fibers), old(deletions), w, elements, fibers, deletions)
      ensures Reconcile(old(fibers), old(deletions), w, elements) == (fibers, deletions)
    {
      var first := AltChild(fibers, w);
      ghost var ch := Chain(fibers, first);
      ChainShape(fibers, first);
      var fs, tagged := ReconcileLoop(fibers, w, elements, first, ch);
      fibers := fs;
      deletions := deletions + tagged;
      ReconciledState(old(fibers), old(deletions), w, elements, ch);
    }

    /** `wipFiber.hooks.push(hook); hookIndex++`. */
    method PushHook(h: Hook)
      requires Valid() && wipFiber.Some?
      modifies this`fibers, this`hookIndex
      ensures Valid()
      ensures var w := wipFiber.value;
        fibers == old(fibers)[w := old(fibers)[w].(hooks := old(fibers)[w].hooks + [h])]
      ensures hookIndex == old(hookIndex) + 1
    {
      var w := wipFiber.value;
      SetHooksKeepsState(fibers, wipRoot, currentRoot, nextUnit, deletions, wipFiber, hookIndex, w, fibers[w].hooks + [h], hookIndex + 1);
      fibers := fibers[w := fibers[w].(hooks := fibers[w].hooks + [h])];
      hookIndex := hookIndex + 1;
    }

    /** `useState(initial)`: the state is the old hook's state with its
        queued actions applied, in order, or `initial` on the first render;
        the new hook starts with an empty queue. */
    method UseState(initial: Value) returns (out: HookOutcome)
      requires Valid() && wipFiber.Some?
      modifies this`fibers, this`hookIndex
      ensures Valid()
      ensures var w := wipFiber.value;
        match StateFrom(OldHook(old(fibers), w, old(hookIndex)), initial)
        case None =>
          out == UsageError && fibers == old(fibers) && hookIndex == old(hookIndex)
        case Some(v) =>
          out == Produced(StateResult(v, HookAddr(w, old(hookIndex)))) &&
          fibers == old(fibers)[w := old(fibers)[w].(hooks := old(fibers)[w].hooks + [StateHook(v, [])])] &&
          hookIndex == old(hookIndex) + 1
    {
      var w := wipFiber.value;
      var oldHook := OldHook(fibers, w, hookIndex);
      if oldHook.Some? && !oldHook.value.StateHook? {
        return UsageError;
      }
      var state := if oldHook.Some? then oldHook.value.state else initial;
      var actions := if oldHook.Some? then oldHook.value.queue else [];
      ghost var start := state;
      var k := 0;
      while k < |actions|
        invariant k <= |actions|
        invariant state == ApplyActions(actions[..k], start)
      {
        assert actions[..k + 1][..k] == actions[..k];
        state := actions[k](state);
        k := k + 1;
      }
      assert actions[..k] == actions;
      var index := hookIndex;
      PushHook(StateHook(state, []));
      out := Produced(StateResult(state, HookAddr(w, index)));
    }

    /** `useEffect(effect, deps)`: the effect runs, at once, when the
        dependency list says it changed; the new hook keeps `deps`. */
    method UseEffect(effect: EffectId, deps: Option<seq<Value>>) returns (out: HookOutcome)
      requires Valid() && wipFiber.Some?
      modifies this`fibers, this`hookIndex, this`effectsRun
      ensures Valid()
      ensures var w := wipFiber.value;
        match EffectChanged(deps, OldHook(old(fibers), w, old(hookIndex)))
        case None =>
          out == UsageError && fibers == old(fibers) && hookIndex == old(hookIndex) && effectsRun == old(effectsRun)
        case Some(changed) =>
          out == Produced(EffectResult) &&
          effectsRun == old(effectsRun) + (if changed then [effect] else []) &&
          fibers == old(fibers)[w := old(fibers)[w].(hooks := old(fibers)[w].hooks + [EffectHook(deps)])] &&
          hookIndex == old(hookIndex) + 1
    {
      var w := wipFiber.value;
      var hasChanged := EffectChanged(deps, OldHook(fibers, w, hookIndex));
      if hasChanged.None? {
        return UsageError;
      }
      if hasChanged.value {
        effectsRun := effectsRun + [effect];
      }
      PushHook(EffectHook(deps));
      out := Produced(EffectResult);
    }

    /** `useRef(initial)`: the old hook's ref, or a fresh `{ current:
        initial }` cell on the first render. */
    method UseRef(initial: Value) returns (out: HookOutcome)
      requires Valid() && wipFiber.Some?
      modifies this`fibers, this`hookIndex, this`cells
      ensures Valid()
      ensures var w := wipFiber.value;
        var oldHook := OldHook(old(fibers), w, old(hookIndex));
        var ref := if oldHook.Some? then RefFrom(oldHook.value) else Some(|old(cells)|);
        out == Produced(RefResult(ref)) &&
        cells == old(cells) + (if oldHook.Some? then [] else [initial]) &&
        fibers == old(fibers)[w := old(fibers)[w].(hooks := old(fibers)[w].hooks + [RefHook(ref)])] &&
        hookIndex == old(hookIndex) + 1
    {
      var w := wipFiber.value;
      var oldHook := OldHook(fibers, w, hookIndex);
      var ref;
      if oldHook.Some? {
        ref := RefFrom(oldHook.value);
      } else {
        cells := cells + [initial];
        ref := Some(|cells| - 1);
      }
      PushHook(RefHook(ref));
      out := Produced(RefResult(ref));
    }

    /** One hook call of a component, dispatched to its primitive: it does
        what `RunHook` says of the call at the wip fiber's hook index. */
    method CallHook(call: HookCall) returns (out: HookOutcome)
      requires Valid() && wipFiber.Some?
      modifies this`fibers, this`hookIndex, this`effectsRun, this`cells
      ensures Valid()
      ensures var w := wipFiber.value;
        match RunHook(call, OldHook(old(fibers), w, old(hookIndex)), HookAddr(w, old(hookIndex)), |old(cells)|)
        case Failed =>
          out == UsageError && fibers == old(fibers) && hookIndex == old(hookIndex) &&
          effectsRun == old(effectsRun) && cells == old(cells)
        case Stepped(result, h, ran, newCells) =>
          out == Produced(result) && hookIndex == old(hookIndex) + 1 &&
          fibers == old(fibers)[w := old(fibers)[w].(hooks := old(fibers)[w].hooks + [h])] &&
          effectsRun == old(effectsRun) + ran && cells == old(cells) + newCells
    {
      match call
      case UseStateCall(initial) =>
        out := UseState(initial);
      case UseEffectCall(effect, deps) =>
        out := UseEffect(effect, deps);
      case UseRefCall(initial) =>
        out := UseRef(initial);
    }

    /** `createDom(fiber)` for a host fiber of tag `tag`: a fresh host node,
        created and given the fiber's props. */
    method CreateDom(tag: string, attrs: seq<Prop>) returns (node: HostRef)
      modifies this`log, this`nextRef
      ensures node == old(nextRef) && nextRef == old(nextRef) + 1
      ensures log == old(log) + CreateOps(node, tag, attrs)
    {
      node := nextRef;
      nextRef := nextRef + 1;
      if tag == TextElement {
        log := log + [CreateTextNode(node, Get(attrs, NodeValueKey))];
      } else {
        log := log + [CreateElementNode(node, tag)];
      }
      log := log + PropDiff.UpdateDom(node, [], attrs);
    }

    /** `commitRoot()`: the queued deletions first, then the new tree below
        the wip root; the wip root becomes the current root. The deletion
        list is left as it is. */
    method CommitRoot()
      requires Valid() && wipRoot.Some?
      modifies this`log, this`currentRoot, this`wipRoot
      ensures Valid()
      ensures log == old(log) + CommitPass(fibers, deletions, old(wipRoot).value)
      ensures currentRoot == old(wipRoot) && wipRoot.None?
    {
      var ops := CommitPassOps(fibers, deletions, wipRoot.value);
      log := log + ops;
      currentRoot := wipRoot;
      wipRoot := None;
    }

    /** The start of `performUnitOfWork(fiber)`: `fiber` becomes the wip
        fiber, with an empty hook list and the hook index at 0. */
    method BeginWork(f: FiberId)
      requires Valid() && f < |fibers|
      modifies this`fibers, this`wipFiber, this`hookIndex
      ensures Valid() && wipFiber == Some(f) && hookIndex == 0
      ensures fibers == old(fibers)[f := old(fibers)[f].(hooks := [])]
    {
      StartWorkKeepsState(fibers, wipRoot, currentRoot, nextUnit, deletions, wipFiber, hookIndex, f);
      fibers := fibers[f := fibers[f].(hooks := [])];
      wipFiber := Some(f);
      hookIndex := 0;
    }

    /** `fiber.type(fiber.props)` for the wip fiber: the component's hook
        calls, as `RunHooks` records them, then the element it returns,
        built from their results. A hook call that throws ends the call
        with None. Only the wip fiber's hook list changes among the
        fibers. */
    method CallComponent(comp: Component, props: Props) returns (element: Option<Element>, results: seq<HookResult>)
      requires Valid() && wipFiber.Some? && hookIndex == 0
      modifies this`fibers, this`hookIndex, this`effectsRun, this`cells
      ensures Valid() && wipFiber == old(wipFiber)
      ensures var w := wipFiber.value;
        var t := RunHooks(comp, props, old(fibers), w, |old(cells)|, comp.hookCount);
        results == t.results &&
        fibers == old(fibers)[w := old(fibers)[w].(hooks := t.hooks)] &&
        effectsRun == old(effectsRun) + t.ran && cells == old(cells) + t.newCells &&
        (element.Some? <==> !t.failed) &&
        (element.Some? ==> element.value == comp.view(props, results))
    {
      var w := wipFiber.value;
      assert FiberOk(fibers, w);
      ghost var fs0 := fibers;
      assert fs0[w := fs0[w].(hooks := [])] == fs0;
      results := [];
      while |results| < comp.hookCount
        invariant Valid() && wipFiber == Some(w) && w < |fs0| && fs0[w].alternate != Some(w)
        invariant hookIndex == |results| <= comp.hookCount
        invariant HooksSoFar(comp, props, fs0, w, old(effectsRun), old(cells), results, fibers, effectsRun, cells)
        decreases comp.hookCount - |results|
      {
        ghost var fs, effects, cs := fibers, effectsRun, cells;
        ghost var step := RunHook(comp.call(props, results), OldHook(fibers, w, hookIndex), HookAddr(w, hookIndex), |cells|);
        var out := CallHook(comp.call(props, results));
        if out.UsageError? {
          HooksSoFarThrow(comp, props, fs0, w, old(effectsRun), old(cells), results, fs, effects, cs, comp.hookCount);
          return None, results;
        }
        HooksSoFarNext(comp, props, fs0, w, old(effectsRun), old(cells), results, fs, effects, cs, step);
        results := results + [out.result];
      }
      element := Some(comp.view(props, results));
    }

    /** The component branch of `performUnitOfWork`: the wip fiber `f` is
        called, and the element it returns is reconciled as its only child;
        false when a hook call throws. */
    method WorkComponent(f: FiberId, comp: Component) returns (done: bool)
      requires Valid() && wipFiber == Some(f) && hookIndex == 0 && f < |fibers|
      modifies this`fibers, this`deletions, this`hookIndex, this`effectsRun, this`cells
      ensures Valid() && wipFiber == Some(f) && |old(fibers)| <= |fibers|
      ensures var t := RunHooks(comp, old(fibers)[f].props, old(fibers), f, |old(cells)|, comp.hookCount);
        ComponentWorked(old(fibers), old(deletions), f, comp, t, fibers, deletions) &&
        (done <==> !t.failed) &&
        effectsRun == old(effectsRun) + t.ran && cells == old(cells) + t.newCells
    {
      var element, _ := CallComponent(comp, fibers[f].props);
      if element.None? {
        return false;
      }
      ReconcileChildren(f, [element.value]);
      done := true;
    }

    /** The host branch of `performUnitOfWork`: the wip fiber `f` gets a
        fresh host node if it has none, and its children are reconciled. */
    method WorkHost(f: FiberId)
      requires Valid() && wipFiber == Some(f) && f < |fibers| && !IsComponent(fibers[f])
      modifies this`fibers, this`deletions, this`log, this`nextRef
      ensures Valid() && wipFiber == Some(f) && |old(fibers)| <= |fibers|
      ensures HostWorked(old(fibers), old(deletions), f, old(nextRef), fibers, deletions)
      ensures fibers[f].dom == if old(fibers)[f].dom.None? then Some(old(nextRef)) else old(fibers)[f].dom
      ensures nextRef == old(nextRef) + (if old(fibers)[f].dom.None? then 1 else 0)
      ensures log == old(log) + RenderOps(old(fibers)[f], old(nextRef))
    {
      var fiber := fibers[f];
      if fiber.dom.None? {
        assert FiberOk(fibers, f);
        var node := CreateDom(fiber.ftype.value.tag, fiber.props.attrs);
        SetDomKeepsState(fibers, wipRoot, currentRoot, nextUnit, deletions, wipFiber, hookIndex, f, node);
        fibers := fibers[f := fibers[f].(dom := Some(node))];
      }
      ghost var fs1 := fibers;
      ReconcileChildren(f, fiber.props.children);
      assert fibers[f].dom == fs1[f].dom;
    }

    /** `performUnitOfWork(fiber)`: the fiber starts with no hooks; a
        component fiber is called and its element reconciled as the only
        child; a host fiber gets its host node if it has none, and its
        children are reconciled; the next unit is the child, else the
        nearest sibling going up. A hook call that throws stops the unit. */
    method PerformUnitOfWork(f: FiberId, comps: nat -> Component) returns (step: Step)
      requires Valid() && f < |fibers|
      modifies this`fibers, this`deletions, this`wipFiber, this`hookIndex, this`effectsRun, this`cells, this`log, this`nextRef
      ensures Valid() && wipFiber == Some(f) && |old(fibers)| <= |fibers|
      ensures UnitDone(comps, UnitRun(f, old(Snap()), Snap(), step))
    {
      BeginWork(f);
      var fiber := fibers[f];
      assert RenderOps(fiber, nextRef) == RenderOps(old(fibers)[f], nextRef);
      if fiber.ftype.Some? && fiber.ftype.value.Component? {
        var done := WorkComponent(f, comps(fiber.ftype.value.id));
        if !done {
          return Crashed;
        }
      } else {
        WorkHost(f);
      }
      var next := NextFiber(fibers, f);
      step := Next(next);
    }

    /** One iteration of the loop of `workLoop(deadline)`: the unit of
        work at the cursor, appended to the run `units` from `s0`. */
    method PerformNext(comps: nat -> Component, ghost first: Option<FiberId>, ghost s0: Snapshot, ghost units: seq<UnitRun>)
      returns (step: Step, ghost units': seq<UnitRun>)
      requires Valid() && nextUnit.Some?
      requires UnitsChain(comps, first, s0, units) && Snap() == EndOf(s0, units)
      requires |units| == 0 ==> nextUnit == first
      requires |units| > 0 ==> units[|units| - 1].step == Next(nextUnit)
      modifies this`fibers, this`deletions, this`wipFiber, this`hookIndex, this`effectsRun, this`cells, this`log, this`nextRef
      ensures Valid()
      ensures UnitsChain(comps, first, s0, units') && Snap() == EndOf(s0, units')
      ensures units' == units + [UnitRun(nextUnit.value, old(Snap()), Snap(), step)]
      ensures step.Next? ==> nextUnit.value < |fibers| && step.next == NextUnit(fibers, nextUnit.value)
      ensures old(nextRef) <= nextRef
      ensures |old(log)| <= |log| && log[..|old(log)|] == old(log)
    {
      var f := nextUnit.value;
      step := PerformUnitOfWork(f, comps);
      ghost var u := UnitRun(f, old(Snap()), Snap(), step);
      UnitsChainExtend(comps, first, s0, units, u);
      assert log[..|old(log)|] == old(log);
      units' := units + [u];
    }

    /** The loop of `workLoop(deadline)`: performs units of work until
        there is none left or the deadline has passed. The deadline is
        modelled by `slice`, the number of units after which the time
        remaining drops below 1 ms; at least one unit is performed when
        there is one. `units` are the units performed, in order: each
        starts where the one before ended, at the fiber the cursor moved
        to, and does what `UnitDone` says. A unit that throws ends the
        loop, and `last` is the last unit performed. */
    method PerformUnits(slice: nat, comps: nat -> Component)
      returns (performed: nat, crashed: bool, last: Option<FiberId>, ghost units: seq<UnitRun>)
      requires Valid()
      modifies this`fibers, this`deletions, this`wipFiber, this`hookIndex, this`effectsRun, this`cells, this`log, this`nextRef
      modifies this`nextUnit
      ensures Valid()
      ensures performed <= Max(slice, 1)
      ensures last.Some? <==> performed > 0
      ensures old(nextUnit).Some? ==> performed > 0
      ensures !crashed ==> nextUnit.None? || performed == Max(slice, 1)
      ensures !crashed && last.Some? ==> last.value < |fibers| && nextUnit == NextUnit(fibers, last.value)
      ensures UnitsChain(comps, old(nextUnit), old(Snap()), units)
      ensures |units| == performed && (last.Some? ==> last.value == units[|units| - 1].fiber)
      ensures crashed <==> |units| > 0 && units[|units| - 1].step.Crashed?
      ensures crashed ==> nextUnit == last
      ensures Snap() == EndOf(old(Snap()), units)
      ensures old(nextRef) <= nextRef
      ensures |old(log)| <= |log| && log[..|old(log)|] == old(log)
    {
      ghost var s0, first := Snap(), nextUnit;
      performed := 0;
      crashed := false;
      last := None;
      units := [];
      var shouldYield := false;
      while nextUnit.Some? && !shouldYield
        invariant Valid()
        invariant performed <= Max(slice, 1)
        invariant shouldYield <==> performed >= Max(slice, 1)
        invariant first.Some? && performed == 0 ==> nextUnit.Some?
        invariant last.Some? <==> performed > 0
        invariant last.Some? ==> last.value < |fibers| && nextUnit == NextUnit(fibers, last.value)
        invariant UnitsChain(comps, first, s0, units)
        invariant |units| == performed && (last.Some? ==> last.value == units[|units| - 1].fiber)
        invariant |units| == 0 ==> nextUnit == first
        invariant |units| > 0 ==> units[|units| - 1].step == Next(nextUnit)
        invariant Snap() == EndOf(s0, units)
        invariant s0.nextRef <= nextRef
        invariant |s0.log| <= |log| && log[..|s0.log|] == s0.log
        decreases Max(slice, 1) - performed
      {
        var f := nextUnit.value;
        var step;
        step, units := PerformNext(comps, first, s0, units);
        last := Some(f);
        if step.Crashed? {
          return performed + 1, true, last, units;
        }
        nextUnit := step.next;
        performed := performed + 1;
        shouldYield := performed >= slice;
      }
    }

    /** `workLoop(deadline)`: the units of work of `PerformUnits`, then,
        when the work is done and nothing threw, `commitRoot` of the wip
        root. A unit that throws ends the engine with nothing committed.
        A commit appends the commit pass of the promoted root to the log. */
    method WorkLoop(slice: nat, comps: nat -> Component)
      returns (performed: nat, crashed: bool, committed: bool, last: Option<FiberId>, ghost units: seq<UnitRun>)
      requires Valid()
      modifies this`fibers, this`deletions, this`wipFiber, this`hookIndex, this`effectsRun, this`cells, this`log, this`nextRef
      modifies this`nextUnit, this`currentRoot, this`wipRoot
      ensures Valid()
      ensures performed <= Max(slice, 1)
      ensures last.Some? <==> performed > 0
      ensures old(nextUnit).Some? ==> performed > 0
      ensures !crashed && nextUnit.Some? ==> performed == Max(slice, 1)
      ensures !crashed && last.Some? ==> last.value < |fibers| && nextUnit == NextUnit(fibers, last.value)
      ensures UnitsChain(comps, old(nextUnit), old(Snap()), units)
      ensures |units| == performed && (last.Some? ==> last.value == units[|units| - 1].fiber)
      ensures crashed <==> |units| > 0 && units[|units| - 1].step.Crashed?
      ensures crashed ==> nextUnit == last
      ensures old(nextRef) <= nextRef
      ensures |old(log)| <= |log| && log[..|old(log)|] == old(log)
      ensures committed <==> !crashed && nextUnit.None? && old(wipRoot).Some?
      ensures committed ==> currentRoot == old(wipRoot) && wipRoot.None?
      ensures !committed ==> currentRoot == old(currentRoot) && wipRoot == old(wipRoot)
      ensures var s := EndOf(old(Snap()), units);
        fibers == s.fibers && deletions == s.deletions && cells == s.cells &&
        effectsRun == s.effectsRun && nextRef == s.nextRef &&
        log == s.log + (if committed then CommitPass(fibers, deletions, currentRoot.value) else [])
      ensures committed ==> var pass := CommitPass(fibers, deletions, currentRoot.value);
        |pass| <= |log| && log[|log| - |pass|..] == pass
    {
      performed, crashed, last, units := PerformUnits(slice, comps);
      committed := !crashed && nextUnit.None? && wipRoot.Some?;
      if committed {
        ghost var log0 := log;
        CommitRoot();
        assert log[..|log0|] == log0;
        assert log[|log0|..] == CommitPass(fibers, deletions, currentRoot.value);
      }
    }

    /** `render(element, container)`: a new wip root holding the container
        and the element as its only child, linked to the current root. The
        container is a host node that already exists. */
    method Render(element: Element, container: HostRef)
      requires Valid() && container < nextRef
      modifies this`fibers, this`wipRoot, this`nextUnit, this`deletions
      ensures Valid()
      ensures fibers == old(fibers) + [Fiber(None, Props([], [element]), Some(container), None, None, None, currentRoot, NoTag, [])]
      ensures wipRoot == Some(|old(fibers)|) && nextUnit == wipRoot && deletions == []
    {
      var root := Fiber(None, Props([], [element]), Some(container), None, None, None, currentRoot, NoTag, []);
      AppendKeepsWf(fibers, root);
      fibers := fibers + [root];
      wipRoot := Some(|fibers| - 1);
      deletions := [];
      nextUnit := wipRoot;
    }

    /** The setter `useState` hands out: pushes `action` on the hook's
        queue, then starts a new render from the current root. Before any
        commit there is no current root and the source throws, after the
        push. */
    method SetState(addr: HookAddr, action: Action) returns (crashed: bool)
      requires Valid()
      requires addr.fiber < |fibers| && addr.index < |fibers[addr.fiber].hooks| && fibers[addr.fiber].hooks[addr.index].StateHook?
      modifies this`fibers, this`wipRoot, this`nextUnit, this`deletions
      ensures Valid()
      ensures crashed <==> currentRoot.None?
      ensures crashed ==>
        fibers == Enqueue(old(fibers), addr, action) &&
        wipRoot == old(wipRoot) && nextUnit == old(nextUnit) && deletions == old(deletions)
      ensures !crashed ==> var cr := old(fibers)[currentRoot.value];
        fibers == Enqueue(old(fibers), addr, action) + [Fiber(None, cr.props, cr.dom, None, None, None, currentRoot, NoTag, [])] &&
        wipRoot == Some(|old(fibers)|) && nextUnit == wipRoot && deletions == []
    {
      var f := fibers[addr.fiber];
      var h := f.hooks[addr.index];
      SetHooksKeepsState(fibers, wipRoot, currentRoot, nextUnit, deletions, wipFiber, hookIndex,
                         addr.fiber, f.hooks[addr.index := h.(queue := h.queue + [action])], hookIndex);
      fibers := fibers[addr.fiber := f.(hooks := f.hooks[addr.index := h.(queue := h.queue + [action])])];
      if currentRoot.None? {
        return true;
      }
      var cr := fibers[currentRoot.value];
      var root := Fiber(None, cr.props, cr.dom, None, None, None, currentRoot, NoTag, []);
      assert FiberOk(fibers, currentRoot.value);
      AppendKeepsWf(fibers, root);
      fibers := fibers + [root];
      wipRoot := Some(|fibers| - 1);
      nextUnit := wipRoot;
      deletions := [];
      crashed := false;
    }
  }
}

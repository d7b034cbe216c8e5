/** The prop diff (`isProperty`, `isNew`, `isGone`, `updateDom`): which
    host calls bring a host node from one props object to the next. The
    `children` entry is never looked at by any of the four passes, so the
    attribute lists here hold only the other entries. */
module PropDiff {
  import opened Nodes

  /** `name.startsWith('on')`: an event-handler prop. Any key that begins
      with the two lower-case letters counts, `on` itself and `one`
      included. */
  predicate IsEvent(key: string): (r: bool)
    ensures r <==> "on" <= key
  {
    |key| >= 2 && key[..2] == "on"
  }

  /** `isProperty(key)`: a plain host attribute. */
  predicate IsProperty(key: string): (r: bool)
    ensures r <==> key != ChildrenKey && !("on" <= key)
  {
    key != ChildrenKey && !IsEvent(key)
  }

  /** `isNew(prev, next)(key)`: `prev[key] !== next[key]`. A key on one
      side only is new; a key on neither side is not. */
  predicate IsNew(prev: seq<Prop>, next: seq<Prop>, key: string): (r: bool)
    ensures HasKey(prev, key) != HasKey(next, key) ==> r
    ensures !HasKey(prev, key) && !HasKey(next, key) ==> !r
    ensures HasKey(prev, key) && HasKey(next, key) ==> (r <==> Get(prev, key).value != Get(next, key).value)
  {
    Get(prev, key) != Get(next, key)
  }

  /** `isGone(prev, next)(key)`: `!(key in next)`; the full props object
      always holds `children`. The old props are not looked at. */
  predicate IsGone(next: seq<Prop>, key: string): (r: bool)
    ensures r <==> key != ChildrenKey && Get(next, key).None?
  {
    key != ChildrenKey && !HasKey(next, key)
  }

  lemma EventIsNotChildren()
    ensures !IsEvent(ChildrenKey)
  {
    assert ChildrenKey[..2] == "ch";
  }

  /** The four passes of `updateDom`, in the order they run. */
  datatype Pass = ClearPass | SetPass | UnlistenPass | ListenPass

  /** The props object whose keys a pass walks. */
  function Source(pass: Pass, prev: seq<Prop>, next: seq<Prop>): seq<Prop> {
    match pass
    case ClearPass => prev
    case SetPass => next
    case UnlistenPass => prev
    case ListenPass => next
  }

  /** The two filters a pass applies to a key. */
  predicate Selected(pass: Pass, prev: seq<Prop>, next: seq<Prop>, key: string) {
    match pass
    case ClearPass => IsProperty(key) && IsGone(next, key)
    case SetPass => IsProperty(key) && IsNew(prev, next, key)
    case UnlistenPass => IsEvent(key) && IsGone(next, key)
    case ListenPass => IsEvent(key) && IsNew(prev, next, key)
  }

  /** The host call a pass makes for a selected key. */
  function PassOp(pass: Pass, node: HostRef, prev: seq<Prop>, next: seq<Prop>, key: string): HostOp
    requires HasKey(Source(pass, prev, next), key)
  {
    match pass
    case ClearPass => ClearProp(node, key)
    case SetPass => SetProp(node, key, Get(next, key).value)
    case UnlistenPass => RemoveListener(node, key, Get(prev, key).value)
    case ListenPass => AddListener(node, key, Get(next, key).value)
  }

  /** One pass over the first `n` keys of its source object. */
  function PassOps(pass: Pass, node: HostRef, prev: seq<Prop>, next: seq<Prop>, n: nat): (r: seq<HostOp>)
    requires n <= |Source(pass, prev, next)|
    ensures forall op :: op in r ==> Rank(op) == PassRank(pass) && op.node == node
  {
    if n == 0 then []
    else
      var src := Source(pass, prev, next);
      var key := src[n - 1].key;
      assert HasKey(src, key) by { assert src[n - 1].key == key; }
      PassOps(pass, node, prev, next, n - 1) +
      (if Selected(pass, prev, next, key) then [PassOp(pass, node, prev, next, key)] else [])
  }

  function WholePass(pass: Pass, node: HostRef, prev: seq<Prop>, next: seq<Prop>): seq<HostOp> {
    PassOps(pass, node, prev, next, |Source(pass, prev, next)|)
  }

  /** `updateDom(dom, prevProps, nextProps)`, as the host calls it makes:
      only property and listener calls, all on `dom`. */
  function UpdateDom(node: HostRef, prev: seq<Prop>, next: seq<Prop>): (r: seq<HostOp>)
    ensures forall op :: op in r ==> op.node == node && Rank(op) < 4
  {
    WholePass(ClearPass, node, prev, next) + WholePass(SetPass, node, prev, next) +
    WholePass(UnlistenPass, node, prev, next) + WholePass(ListenPass, node, prev, next)
  }

  /** Which pass produces a host call. */
  function Rank(op: HostOp): nat {
    match op
    case ClearProp(_, _) => 0
    case SetProp(_, _, _) => 1
    case RemoveListener(_, _, _) => 2
    case AddListener(_, _, _) => 3
    case _ => 4
  }

  function PassRank(pass: Pass): nat {
    match pass
    case ClearPass => 0
    case SetPass => 1
    case UnlistenPass => 2
    case ListenPass => 3
  }

  /** Every call a pass makes is the call for a selected key of its
      source. */
  lemma {:induction false} PassOpsWitness(pass: Pass, node: HostRef, prev: seq<Prop>, next: seq<Prop>, n: nat, op: HostOp)
    returns (i: nat)
    requires n <= |Source(pass, prev, next)| && op in PassOps(pass, node, prev, next, n)
    ensures i < n && Selected(pass, prev, next, Source(pass, prev, next)[i].key)
    ensures op == PassOp(pass, node, prev, next, Source(pass, prev, next)[i].key)
  {
    var src := Source(pass, prev, next);
    var key := src[n - 1].key;
    assert HasKey(src, key);
    var last := if Selected(pass, prev, next, key) then [PassOp(pass, node, prev, next, key)] else [];
    assert PassOps(pass, node, prev, next, n) == PassOps(pass, node, prev, next, n - 1) + last;
    if op in last {
      i := n - 1;
    } else {
      i := PassOpsWitness(pass, node, prev, next, n - 1, op);
    }
  }

  /** A pass makes the call for every selected key of its source. */
  lemma {:induction false} PassOpsIncludes(pass: Pass, node: HostRef, prev: seq<Prop>, next: seq<Prop>, n: nat, i: nat)
    requires i < n <= |Source(pass, prev, next)| && Selected(pass, prev, next, Source(pass, prev, next)[i].key)
    ensures PassOp(pass, node, prev, next, Source(pass, prev, next)[i].key) in PassOps(pass, node, prev, next, n)
  {
    var src := Source(pass, prev, next);
    var key := src[n - 1].key;
    assert HasKey(src, key);
    var last := if Selected(pass, prev, next, key) then [PassOp(pass, node, prev, next, key)] else [];
    assert PassOps(pass, node, prev, next, n) == PassOps(pass, node, prev, next, n - 1) + last;
    if i < n - 1 {
      PassOpsIncludes(pass, node, prev, next, n - 1, i);
    }
  }

  /** A pass makes exactly the calls for the selected keys of its source. */
  lemma PassOpsMembers(pass: Pass, node: HostRef, prev: seq<Prop>, next: seq<Prop>, n: nat, op: HostOp)
    requires n <= |Source(pass, prev, next)|
    ensures op in PassOps(pass, node, prev, next, n) <==>
      exists i :: 0 <= i < n && Selected(pass, prev, next, Source(pass, prev, next)[i].key) &&
        op == PassOp(pass, node, prev, next, Source(pass, prev, next)[i].key)
  {
    var src := Source(pass, prev, next);
    if op in PassOps(pass, node, prev, next, n) {
      var i := PassOpsWitness(pass, node, prev, next, n, op);
    }
    if exists i :: 0 <= i < n && Selected(pass, prev, next, src[i].key) && op == PassOp(pass, node, prev, next, src[i].key) {
      var i :| 0 <= i < n && Selected(pass, prev, next, src[i].key) && op == PassOp(pass, node, prev, next, src[i].key);
      PassOpsIncludes(pass, node, prev, next, n, i);
    }
  }

  /** A key of the source: the pass selects it iff the call for it is made. */
  lemma WholePassMembers(pass: Pass, node: HostRef, prev: seq<Prop>, next: seq<Prop>, key: string)
    requires HasKey(Source(pass, prev, next), key)
    ensures PassOp(pass, node, prev, next, key) in WholePass(pass, node, prev, next) <==> Selected(pass, prev, next, key)
  {
    var src := Source(pass, prev, next);
    var op := PassOp(pass, node, prev, next, key);
    PassOpsMembers(pass, node, prev, next, |src|, op);
    var i :| 0 <= i < |src| && src[i].key == key;
    if op in WholePass(pass, node, prev, next) {
      var j :| 0 <= j < |src| && Selected(pass, prev, next, src[j].key) && op == PassOp(pass, node, prev, next, src[j].key);
      assert src[j].key == key;
    }
  }

  /** A call is made by `updateDom` exactly when the pass of its kind
      makes it. */
  lemma InOwnPass(pass: Pass, node: HostRef, prev: seq<Prop>, next: seq<Prop>, op: HostOp)
    requires Rank(op) == PassRank(pass)
    ensures op in UpdateDom(node, prev, next) <==> op in WholePass(pass, node, prev, next)
  {
  }

  /** A plain property is set to the new value exactly when it is in the
      new props and its value changed. */
  lemma UpdateDomSets(node: HostRef, prev: seq<Prop>, next: seq<Prop>, key: string, v: Value)
    ensures SetProp(node, key, v) in UpdateDom(node, prev, next) <==>
      IsProperty(key) && Get(next, key) == Some(v) && Get(prev, key) != Some(v)
  {
    var op := SetProp(node, key, v);
    InOwnPass(SetPass, node, prev, next, op);
    if HasKey(next, key) && Get(next, key) == Some(v) {
      WholePassMembers(SetPass, node, prev, next, key);
    }
    if op in WholePass(SetPass, node, prev, next) {
      PassOpsMembers(SetPass, node, prev, next, |next|, op);
    }
  }

  /** A plain property is cleared exactly when the old props had it and
      the new props do not. */
  lemma UpdateDomClears(node: HostRef, prev: seq<Prop>, next: seq<Prop>, key: string)
    ensures ClearProp(node, key) in UpdateDom(node, prev, next) <==>
      IsProperty(key) && HasKey(prev, key) && !HasKey(next, key)
  {
    var op := ClearProp(node, key);
    InOwnPass(ClearPass, node, prev, next, op);
    if HasKey(prev, key) {
      WholePassMembers(ClearPass, node, prev, next, key);
    }
    if op in WholePass(ClearPass, node, prev, next) {
      PassOpsMembers(ClearPass, node, prev, next, |prev|, op);
    }
  }

  /** A listener is removed only for an event prop the new props lack. */
  lemma UpdateDomUnlistens(node: HostRef, prev: seq<Prop>, next: seq<Prop>, key: string, h: Value)
    ensures RemoveListener(node, key, h) in UpdateDom(node, prev, next) <==>
      IsEvent(key) && Get(prev, key) == Some(h) && !HasKey(next, key)
  {
    var op := RemoveListener(node, key, h);
    InOwnPass(UnlistenPass, node, prev, next, op);
    EventIsNotChildren();
    if Get(prev, key) == Some(h) {
      WholePassMembers(UnlistenPass, node, prev, next, key);
    }
    if op in WholePass(UnlistenPass, node, prev, next) {
      PassOpsMembers(UnlistenPass, node, prev, next, |prev|, op);
    }
  }

  /** A listener is added for an event prop whose handler is new or changed. */
  lemma UpdateDomListens(node: HostRef, prev: seq<Prop>, next: seq<Prop>, key: string, h: Value)
    ensures AddListener(node, key, h) in UpdateDom(node, prev, next) <==>
      IsEvent(key) && Get(next, key) == Some(h) && Get(prev, key) != Some(h)
  {
    var op := AddListener(node, key, h);
    InOwnPass(ListenPass, node, prev, next, op);
    if Get(next, key) == Some(h) {
      WholePassMembers(ListenPass, node, prev, next, key);
    }
    if op in WholePass(ListenPass, node, prev, next) {
      PassOpsMembers(ListenPass, node, prev, next, |next|, op);
    }
  }

  /** Calls whose passes never go backwards. */
  predicate PassOrdered(ops: seq<HostOp>) {
    forall i, j :: 0 <= i < j < |ops| ==> Rank(ops[i]) <= Rank(ops[j])
  }

  lemma ConcatOrdered(xs: seq<HostOp>, ys: seq<HostOp>, r: nat)
    requires PassOrdered(xs) && PassOrdered(ys)
    requires forall op :: op in xs ==> Rank(op) <= r
    requires forall op :: op in ys ==> r <= Rank(op)
    ensures PassOrdered(xs + ys)
  {
    var zs := xs + ys;
    forall i, j | 0 <= i < j < |zs| ensures Rank(zs[i]) <= Rank(zs[j]) {
      if j < |xs| {
        assert zs[i] == xs[i] && zs[j] == xs[j];
      } else if i >= |xs| {
        assert zs[i] == ys[i - |xs|] && zs[j] == ys[j - |xs|];
      } else {
        assert zs[i] == xs[i] && xs[i] in xs;
        assert zs[j] == ys[j - |xs|] && ys[j - |xs|] in ys;
      }
    }
  }

  lemma WholePassOrdered(pass: Pass, node: HostRef, prev: seq<Prop>, next: seq<Prop>)
    ensures PassOrdered(WholePass(pass, node, prev, next))
    ensures forall op :: op in WholePass(pass, node, prev, next) ==> Rank(op) == PassRank(pass) && op.node == node
  {
    var ops := WholePass(pass, node, prev, next);
    forall i, j | 0 <= i < j < |ops| ensures Rank(ops[i]) <= Rank(ops[j]) {
      assert ops[i] in ops && ops[j] in ops;
    }
  }

  /** Every call touches the given node, and the calls come pass by pass:
      clears, then sets, then listener removals, then listener additions. */
  lemma UpdateDomOrder(node: HostRef, prev: seq<Prop>, next: seq<Prop>)
    ensures forall op :: op in UpdateDom(node, prev, next) ==> op.node == node && Rank(op) < 4
    ensures PassOrdered(UpdateDom(node, prev, next))
  {
    var a := WholePass(ClearPass, node, prev, next);
    var b := WholePass(SetPass, node, prev, next);
    var c := WholePass(UnlistenPass, node, prev, next);
    var d := WholePass(ListenPass, node, prev, next);
    WholePassOrdered(ClearPass, node, prev, next);
    WholePassOrdered(SetPass, node, prev, next);
    WholePassOrdered(UnlistenPass, node, prev, next);
    WholePassOrdered(ListenPass, node, prev, next);
    ConcatOrdered(a, b, 1);
    ConcatOrdered(a + b, c, 2);
    ConcatOrdered(a + b + c, d, 3);
  }

  /** Diffing props against themselves makes no host call. */
  lemma {:induction false} UpdateDomSameProps(node: HostRef, attrs: seq<Prop>)
    ensures UpdateDom(node, attrs, attrs) == []
  {
    forall pass: Pass, n: nat | n <= |attrs|
      ensures PassOps(pass, node, attrs, attrs, n) == []
    {
      NoneSelected(pass, node, attrs, n);
    }
  }

  lemma {:induction false} NoneSelected(pass: Pass, node: HostRef, attrs: seq<Prop>, n: nat)
    requires n <= |attrs|
    ensures PassOps(pass, node, attrs, attrs, n) == []
  {
    if n > 0 {
      NoneSelected(pass, node, attrs, n - 1);
      var key := attrs[n - 1].key;
      assert Source(pass, attrs, attrs) == attrs;
      assert HasKey(attrs, key);
      assert !Selected(pass, attrs, attrs, key);
    }
  }

  /** An event prop whose handler changed gets the new listener added while
      the old one is never removed. */
  lemma ChangedHandlerKeepsOldListener(node: HostRef, prev: seq<Prop>, next: seq<Prop>, key: string, before: Value, after: Value)
    requires IsEvent(key) && Get(prev, key) == Some(before) && Get(next, key) == Some(after) && before != after
    ensures AddListener(node, key, after) in UpdateDom(node, prev, next)
    ensures forall h :: RemoveListener(node, key, h) !in UpdateDom(node, prev, next)
  {
    UpdateDomListens(node, prev, next, key, after);
    forall h ensures RemoveListener(node, key, h) !in UpdateDom(node, prev, next) {
      UpdateDomUnlistens(node, prev, next, key, h);
    }
  }

  /** Against empty old props every call sets a property or adds a
      listener on the given node. */
  lemma FromEmptyOnlyAdds(node: HostRef, next: seq<Prop>)
    ensures forall op :: op in UpdateDom(node, [], next) ==> (op.SetProp? || op.AddListener?) && op.node == node
  {
  }

  /** Against empty old props (a freshly created node) every plain property
      is set and every handler is attached; nothing is cleared or removed. */
  lemma UpdateDomFromEmpty(node: HostRef, next: seq<Prop>)
    ensures forall key, v :: IsProperty(key) && Get(next, key) == Some(v) ==> SetProp(node, key, v) in UpdateDom(node, [], next)
    ensures forall key, h :: IsEvent(key) && Get(next, key) == Some(h) ==> AddListener(node, key, h) in UpdateDom(node, [], next)
    ensures forall op :: op in UpdateDom(node, [], next) ==> op.SetProp? || op.AddListener?
  {
    forall key, v | IsProperty(key) && Get(next, key) == Some(v)
      ensures SetProp(node, key, v) in UpdateDom(node, [], next)
    {
      UpdateDomSets(node, [], next, key, v);
    }
    forall key, h | IsEvent(key) && Get(next, key) == Some(h)
      ensures AddListener(node, key, h) in UpdateDom(node, [], next)
    {
      UpdateDomListens(node, [], next, key, h);
    }
    FromEmptyOnlyAdds(node, next);
  }
}

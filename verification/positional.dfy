/** The per-position plan of the child reconciler. Position `k` pairs the
    k-th new element with the k-th fiber of the old child chain; the
    plan depends only on the element types and the old fiber types. */
module Positional {
  import opened Nodes

  /** Both an old fiber and a new element exist at position `k`, with the
      same type: the old fiber is updated in place. */
  predicate Matches(newTypes: seq<ElemType>, oldTypes: seq<Option<ElemType>>, k: nat) {
    k < |newTypes| && k < |oldTypes| && oldTypes[k] == Some(newTypes[k])
  }

  /** The old positions below `k` whose fiber is deleted, in order. */
  function DeletedBelow(newTypes: seq<ElemType>, oldTypes: seq<Option<ElemType>>, k: nat): (r: seq<nat>)
    requires k <= |oldTypes|
    ensures forall j: nat :: j in r <==> j < k && !Matches(newTypes, oldTypes, j)
    ensures forall a, b :: 0 <= a < b < |r| ==> r[a] < r[b]
    ensures forall a :: 0 <= a < |r| ==> r[a] < k
  {
    if k == 0 then []
    else
      var below := DeletedBelow(newTypes, oldTypes, k - 1);
      if Matches(newTypes, oldTypes, k - 1) then below else below + [k - 1]
  }

  /** Every old position whose fiber is deleted, in order. */
  function Deleted(newTypes: seq<ElemType>, oldTypes: seq<Option<ElemType>>): seq<nat> {
    DeletedBelow(newTypes, oldTypes, |oldTypes|)
  }

  /** The number of matched positions below `k`. */
  function MatchesBelow(newTypes: seq<ElemType>, oldTypes: seq<Option<ElemType>>, k: nat): nat {
    if k == 0 then 0
    else MatchesBelow(newTypes, oldTypes, k - 1) + (if Matches(newTypes, oldTypes, k - 1) then 1 else 0)
  }

  lemma {:induction false} MatchedOrDeleted(newTypes: seq<ElemType>, oldTypes: seq<Option<ElemType>>, k: nat)
    requires k <= |oldTypes|
    ensures MatchesBelow(newTypes, oldTypes, k) + |DeletedBelow(newTypes, oldTypes, k)| == k
  {
    if k > 0 {
      MatchedOrDeleted(newTypes, oldTypes, k - 1);
    }
  }

  /** No position at or past either end matches. */
  lemma {:induction false} MatchesStable(newTypes: seq<ElemType>, oldTypes: seq<Option<ElemType>>, k: nat, m: nat)
    requires m <= k
    requires m >= |newTypes| || m >= |oldTypes|
    ensures MatchesBelow(newTypes, oldTypes, k) == MatchesBelow(newTypes, oldTypes, m)
  {
    if k > m {
      MatchesStable(newTypes, oldTypes, k - 1, m);
    }
  }

  /** The fibers updated plus the fibers deleted are exactly the old
      fibers: every old fiber is either reused or deleted. */
  lemma UpdatedPlusDeletedIsOld(newTypes: seq<ElemType>, oldTypes: seq<Option<ElemType>>)
    ensures MatchesBelow(newTypes, oldTypes, |newTypes|) + |Deleted(newTypes, oldTypes)| == |oldTypes|
  {
    MatchedOrDeleted(newTypes, oldTypes, |oldTypes|);
    if |newTypes| <= |oldTypes| {
      MatchesStable(newTypes, oldTypes, |oldTypes|, |newTypes|);
    } else {
      MatchesStable(newTypes, oldTypes, |newTypes|, |oldTypes|);
    }
  }

  lemma {:induction false} NothingDeletedBelow(newTypes: seq<ElemType>, oldTypes: seq<Option<ElemType>>, k: nat)
    requires k <= |oldTypes|
    requires forall j :: 0 <= j < k ==> Matches(newTypes, oldTypes, j)
    ensures DeletedBelow(newTypes, oldTypes, k) == []
  {
    if k > 0 {
      NothingDeletedBelow(newTypes, oldTypes, k - 1);
    }
  }

  /** Reconciling a list of the same types as before updates every
      position: nothing is placed and nothing is deleted. */
  lemma SameTypesKeepEveryFiber(newTypes: seq<ElemType>, oldTypes: seq<Option<ElemType>>)
    requires |newTypes| == |oldTypes|
    requires forall k :: 0 <= k < |newTypes| ==> oldTypes[k] == Some(newTypes[k])
    ensures Deleted(newTypes, oldTypes) == []
    ensures forall k :: 0 <= k < |newTypes| ==> Matches(newTypes, oldTypes, k)
    ensures MatchesBelow(newTypes, oldTypes, |newTypes|) == |newTypes|
  {
    UpdatedPlusDeletedIsOld(newTypes, oldTypes);
    NothingDeletedBelow(newTypes, oldTypes, |oldTypes|);
  }
}

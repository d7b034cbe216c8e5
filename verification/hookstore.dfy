/** The hook records kept per fiber, indexed by call order, and the pure
    decisions the hook primitives make: folding a state hook's queued
    actions and comparing an effect's dependency list. */
module HookStore {
  import opened Nodes

  /** Fibers are kept in an arena; a fiber is known by its index. */
  type FiberId = nat

  /** A ref object (`{ current: ... }`), known by its index in the cell store. */
  type CellId = nat

  /** An effect callback, known by an id; running it is logged. */
  type EffectId = nat

  /** A state action: a pure `state -> state` transform. */
  type Action = Value -> Value

  /** The three hook records: `{state, queue}`, `{deps}`, `{ref}`. An
      absent `deps` or `ref` is JavaScript's `undefined`. */
  datatype Hook =
    | StateHook(state: Value, queue: seq<Action>)
    | EffectHook(deps: Option<seq<Value>>)
    | RefHook(ref: Option<CellId>)

  /** What a state setter closes over: the hook record it pushes onto,
      given by the fiber that owns it and its call-order index. */
  datatype HookAddr = HookAddr(fiber: FiberId, index: nat)

  /** One hook primitive call made by a component. */
  datatype HookCall =
    | UseStateCall(initial: Value)
    | UseEffectCall(effect: EffectId, deps: Option<seq<Value>>)
    | UseRefCall(initial: Value)

  /** What a hook primitive hands back to the component. */
  datatype HookResult =
    | StateResult(value: Value, setter: HookAddr)
    | EffectResult
    | RefResult(ref: Option<CellId>)

  /** A component function: it makes `hookCount` hook calls, each chosen
      from its props and the results of the calls before it, and then
      returns the element `view` builds from the same. */
  datatype Component = Component(
    hookCount: nat,
    call: (Props, seq<HookResult>) -> HookCall,
    view: (Props, seq<HookResult>) -> Element)

  /** `actions.forEach(action => { hook.state = action(hook.state) })`:
      the queued actions applied to the state, first queued first. */
  function ApplyActions(queue: seq<Action>, state: Value): Value {
    if |queue| == 0 then state
    else queue[|queue| - 1](ApplyActions(queue[..|queue| - 1], state))
  }

  /** Applying two queues one after the other is applying their
      concatenation: actions queued in several setter calls are applied
      in call order. */
  lemma {:induction false} ApplyActionsAppend(first: seq<Action>, second: seq<Action>, state: Value)
    ensures ApplyActions(first + second, state) == ApplyActions(second, ApplyActions(first, state))
  {
    if |second| > 0 {
      var all := first + second;
      assert all[..|all| - 1] == first + second[..|second| - 1];
      ApplyActionsAppend(first, second[..|second| - 1], state);
    } else {
      assert first + second == first;
    }
  }

  /** An empty queue leaves the state alone; one action is applied once. */
  lemma ApplySingle(a: Action, state: Value)
    ensures ApplyActions([], state) == state
    ensures ApplyActions([a], state) == a(state)
  {
    assert [a][..0] == [];
  }

  /** The state `useState` renders with: the initial value on the first
      render, else the old hook's state with its queued actions applied;
      None when the old hook at this index is of another kind, where the
      source throws on its missing queue. */
  function StateFrom(oldHook: Option<Hook>, initial: Value): (r: Option<Value>)
    ensures r.None? <==> oldHook.Some? && !oldHook.value.StateHook?
    ensures oldHook.None? ==> r == Some(initial)
    ensures oldHook.Some? && oldHook.value.StateHook? && oldHook.value.queue == [] ==> r == Some(oldHook.value.state)
  {
    match oldHook
    case None => Some(initial)
    case Some(h) => if h.StateHook? then Some(ApplyActions(h.queue, h.state)) else None
  }

  /** The ref `useRef` hands back when there is an old hook: the old ref,
      or `undefined` (None) when the old hook is of another kind. */
  function RefFrom(oldHook: Hook): Option<CellId> {
    if oldHook.RefHook? then oldHook.ref else None
  }

  /** Actions queued by several setter calls between two renders are all
      applied, in call order, on the next render. */
  lemma QueuedActionsApplied(state: Value, earlier: seq<Action>, later: seq<Action>)
    ensures StateFrom(Some(StateHook(state, earlier + later)), state) ==
      Some(ApplyActions(later, ApplyActions(earlier, state)))
  {
    ApplyActionsAppend(earlier, later, state);
  }

  /** `deps.some((dep, i) => !Object.is(dep, oldDeps[i]))`, scanning from
      index `from`. An index past the end of `oldDeps` reads `undefined`;
      `Value` has no `undefined`, so an entry there always differs. */
  function DepsDiffer(deps: seq<Value>, oldDeps: seq<Value>, from: nat): bool
    decreases |deps| - from
  {
    if from >= |deps| then false
    else if DiffersAt(deps, oldDeps, from) then true
    else DepsDiffer(deps, oldDeps, from + 1)
  }

  /** Index `i` of the new list differs from the old list, or the old list
      has no entry there. */
  predicate DiffersAt(deps: seq<Value>, oldDeps: seq<Value>, i: nat)
    requires i < |deps|
  {
    i >= |oldDeps| || deps[i] != oldDeps[i]
  }

  /** Some index of the new list differs from the old list, or the old
      list has no entry there. */
  ghost predicate SomeDepChanged(deps: seq<Value>, oldDeps: seq<Value>) {
    exists i :: 0 <= i < |deps| && DiffersAt(deps, oldDeps, i)
  }

  lemma {:induction false} DepsDifferMeans(deps: seq<Value>, oldDeps: seq<Value>, from: nat)
    ensures DepsDiffer(deps, oldDeps, from) <==>
      exists i :: from <= i < |deps| && DiffersAt(deps, oldDeps, i)
    decreases |deps| - from
  {
    if from < |deps| {
      if DiffersAt(deps, oldDeps, from) {
        var i := from;
        assert from <= i < |deps| && DiffersAt(deps, oldDeps, i);
      } else {
        DepsDifferMeans(deps, oldDeps, from + 1);
        if exists i :: from <= i < |deps| && DiffersAt(deps, oldDeps, i) {
          var i :| from <= i < |deps| && DiffersAt(deps, oldDeps, i);
          assert from + 1 <= i < |deps| && DiffersAt(deps, oldDeps, i);
        }
        if DepsDiffer(deps, oldDeps, from + 1) {
          var i :| from + 1 <= i < |deps| && DiffersAt(deps, oldDeps, i);
          assert from <= i < |deps| && DiffersAt(deps, oldDeps, i);
        }
      }
    }
  }

  /** `hasChanged` in `useEffect`: Some(b) is the decision, None means the
      comparison throws because it indexes an old hook that has no
      dependency list. */
  function EffectChanged(deps: Option<seq<Value>>, oldHook: Option<Hook>): (r: Option<bool>)
    ensures deps.None? || oldHook.None? ==> r == Some(true)
    ensures deps == Some([]) && oldHook.Some? ==> r == Some(false)
    ensures r.None? <==> deps.Some? && oldHook.Some? && |deps.value| > 0 && !(oldHook.value.EffectHook? && oldHook.value.deps.Some?)
  {
    match deps
    case None => Some(true)
    case Some(ds) =>
      if oldHook.None? then Some(true)
      else if |ds| == 0 then Some(false)
      else if oldHook.value.EffectHook? && oldHook.value.deps.Some? then
        Some(DepsDiffer(ds, oldHook.value.deps.value, 0))
      else None
  }

  /** The effect runs exactly when there is no dependency list, or no old
      hook, or some entry of the new list differs from the old list at the
      same index; lengths are not compared. */
  lemma EffectRunsWhen(deps: Option<seq<Value>>, oldHook: Option<Hook>)
    requires deps.Some? && oldHook.Some? && |deps.value| > 0 ==> oldHook.value.EffectHook? && oldHook.value.deps.Some?
    ensures EffectChanged(deps, oldHook).Some?
    ensures EffectChanged(deps, oldHook) == Some(true) <==>
      deps.None? || oldHook.None? ||
      (|deps.value| > 0 && SomeDepChanged(deps.value, oldHook.value.deps.value))
  {
    if deps.Some? && oldHook.Some? {
      if |deps.value| > 0 {
        DepsDifferMeans(deps.value, oldHook.value.deps.value, 0);
      }
    }
  }

  /** A call on an old hook of another kind, with a non-empty list, throws. */
  lemma EffectOnWrongHookThrows(deps: seq<Value>, oldHook: Hook)
    requires |deps| > 0 && !(oldHook.EffectHook? && oldHook.deps.Some?)
    ensures EffectChanged(Some(deps), Some(oldHook)).None?
  {
  }

  /** A list that is a prefix of the old one counts as unchanged, however
      much shorter it is. */
  lemma {:induction false} ShorterMatchingDepsUnchanged(deps: seq<Value>, oldDeps: seq<Value>)
    requires |deps| <= |oldDeps| && deps == oldDeps[..|deps|]
    ensures EffectChanged(Some(deps), Some(EffectHook(Some(oldDeps)))) == Some(false)
  {
    DepsDifferMeans(deps, oldDeps, 0);
    assert forall i :: 0 <= i < |deps| ==> deps[i] == oldDeps[..|deps|][i];
  }

  /** A longer list always counts as changed, since its extra entries are
      values and the old list reads `undefined` there. */
  lemma {:induction false} LongerDepsChanged(deps: seq<Value>, oldDeps: seq<Value>)
    requires |deps| > |oldDeps|
    ensures EffectChanged(Some(deps), Some(EffectHook(Some(oldDeps)))) == Some(true)
  {
    DepsDifferMeans(deps, oldDeps, 0);
    var i := |oldDeps|;
    assert 0 <= i < |deps| && DiffersAt(deps, oldDeps, i);
  }

  /** `c => c + 1` on numbers, the action of the counter component. */
  function PlusOne(c: Value): Value {
    match c
    case Num(n) => Num(n + 1)
    case _ => c
  }

  /** The counter scenario: starting from 0, three queued `c => c + 1`
      actions give 3; an effect on `[count]` reruns when the count moved
      from 0 to 3 and stays quiet when it did not move. */
  lemma {:induction false} CounterScenario()
    ensures ApplyActions([PlusOne, PlusOne, PlusOne], Num(0)) == Num(3)
    ensures EffectChanged(Some([Num(3)]), Some(EffectHook(Some([Num(0)])))) == Some(true)
    ensures EffectChanged(Some([Num(3)]), Some(EffectHook(Some([Num(3)])))) == Some(false)
  {
    var q: seq<Action> := [PlusOne, PlusOne, PlusOne];
    ApplyActionsAppend([PlusOne, PlusOne], [PlusOne], Num(0));
    ApplyActionsAppend([PlusOne], [PlusOne], Num(0));
    ApplySingle(PlusOne, Num(0));
    ApplySingle(PlusOne, Num(1));
    ApplySingle(PlusOne, Num(2));
    assert q == [PlusOne, PlusOne] + [PlusOne];
    assert [PlusOne, PlusOne] == [PlusOne] + [PlusOne];
  }
}

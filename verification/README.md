# mini-react fiber reconciler, modelled in Dafny

This project models the engine in `my-react/src/myReact.js`. It is a small
React-like library that:

- builds element descriptions with `createElement`;
- expands them into a tree of fibers, one unit of work at a time, under a
  cooperative time slice;
- diffs each new generation of fibers against the previous one by position;
- commits the resulting effect tags (PLACEMENT, UPDATE, DELETION) to the host
  document in one pass;
- keeps per-fiber hook records (`useState`, `useEffect`, `useRef`) indexed by
  call order.

How the model represents the engine:

- **Fibers** live in an arena, `seq<Fiber>`. Their `parent`, `child`,
  `sibling` and `alternate` links are indices into it. New fibers are only
  ever appended, so a child or next sibling sits after its fiber and a parent
  or alternate before it. Every walk terminates for that reason.
- **Host document:** the engine's calls into it are an append-only log of
  `HostOp`s: create element or text node, set or clear a property, add or
  remove a listener, append or remove a child.
- **Component functions** are a `Component` value. It makes a fixed number of
  hook calls, each chosen from the props and the earlier hook results, and
  then returns an element.
- **Time slice:** the deadline of `workLoop` is the number of units a slice
  allows.
- **`my-react/src/Counter.js`** serves as the scenario for the hook lemmas:
  `useState(0)`, an effect on `[count]`, and `setCount(c => c + 1)`.

Modules, one per part of the engine:

- `Nodes`: values, props, elements, host operations, `createElement` and
  `createTextElement`.
- `PropDiff`: `isProperty`, `isNew`, `isGone` and `updateDom`. `updateDom` is
  the list of host calls its four passes make.
- `HookStore`: hook records, the fold of a state hook's queued actions, and
  the dependency comparison of `useEffect`.
- `Positional`: the per-position plan of `reconcileChildren`, as a pure
  function of the new and old types.
- `FiberArena`: the arena, its shape rules, and the specification functions
  of the depth-first cursor and the commit pass.
- `Commit`: `commitWork`, `commitDeletion`, the walk up to the nearest host
  node and the host calls of `commitRoot`, each proved equal to its
  specification function.
- `Runtime`: the module-level variables of the source as the class
  `Runtime.Engine`, plus `render`, `performUnitOfWork`, `workLoop`,
  `reconcileChildren`, `commitRoot`, the hook primitives and the setter.

Where the code departs from React's documented behaviour, the model follows
the code:

- Effects run during render, when `useEffect` is called
  (`my-react/src/myReact.js:317-319`), not after commit.
- `commitRoot` leaves `deletions` and `nextUnitOfWork` as they are
  (`my-react/src/myReact.js:223-228`). They are reset by the next `render` or
  setter call instead.
- A changed event handler gets the new listener added, and the old one is
  never removed (`my-react/src/myReact.js:69-84`).
- Dependency lists are compared index by index over the new list only.
  - A shorter list whose entries match counts as unchanged.
  - An empty list counts as unchanged whenever there is an old hook.

## Model

| member | source | states |
|---|---|---|
| Nodes.CreateTextElement | my-react/src/myReact.js:26-34 | a text element has the `TEXT_ELEMENT` type and no children; its only prop is `nodeValue`, holding the text |
| Nodes.CreateElement | my-react/src/myReact.js:11-23 | keeps the type and one child per argument, in order. An element child is kept unchanged; any other child becomes the text element of its value. The attributes are exactly the given props minus any `children` entry, so a passed-in `children` prop never survives. |
| Nodes.CreateElementKeepsElements | my-react/src/myReact.js:16-20 | a list of element children comes out exactly as it went in |
| PropDiff.IsEvent | my-react/src/myReact.js:70 | a key names an event handler iff it starts with `on`: any key beginning with those two lower-case letters counts, `on`, `one` and `online` included, while `On…` does not |
| PropDiff.IsProperty | my-react/src/myReact.js:88-90 | a key is a plain property iff it is not `children` and does not start with `on`, so every key is exactly one of `children`, an event or a property |
| PropDiff.IsNew | my-react/src/myReact.js:93-95 | strict inequality of the two lookups: a key present on one side only is new, a key on neither side is not, and a key on both sides is new iff its values differ |
| PropDiff.IsGone | my-react/src/myReact.js:98-100 | a key is gone iff the new props lack it as an own key; the old props are never looked at, and `children` is never gone, since a full props object always holds it |
| PropDiff.UpdateDom | my-react/src/myReact.js:51-85 | the calls of the four passes one after the other: clears of gone properties, sets of new properties, removals of gone handlers, additions of new handlers. Every call is a property or listener call on the given node; which calls are made, key by key, is what the `UpdateDom…` lemmas below state. |
| PropDiff.UpdateDomSets | my-react/src/myReact.js:61-66 | a plain property is set to `v` iff it is not `children`, does not start with `on`, is `v` in the new props, and was not `v` before |
| PropDiff.UpdateDomClears | my-react/src/myReact.js:53-58 | a plain property is cleared iff the old props have it and the new props lack it |
| PropDiff.UpdateDomUnlistens | my-react/src/myReact.js:69-75 | listener `h` is removed from an `on*` key iff the old props bound `h` there and the new props lack the key |
| PropDiff.UpdateDomListens | my-react/src/myReact.js:78-84 | listener `h` is added for an `on*` key iff the new props bind `h` there and the old props did not |
| PropDiff.UpdateDomOrder | my-react/src/myReact.js:51-85 | every call touches the given node and is a property or listener call; the calls come pass by pass: clears, sets, removals, additions |
| PropDiff.ChangedHandlerKeepsOldListener | my-react/src/myReact.js:69-84 | a handler that changed value gets the new listener added, and no listener is removed for that key |
| PropDiff.UpdateDomSameProps | my-react/src/myReact.js:51-85 | diffing props against themselves makes no host call |
| PropDiff.UpdateDomFromEmpty | my-react/src/myReact.js:45 | against empty old props, every plain property is set and every handler attached, and nothing else happens |
| HookStore.ApplyActionsAppend | my-react/src/myReact.js:282-285 | folding two queues one after the other equals folding their concatenation |
| HookStore.StateFrom | my-react/src/myReact.js:276-285 | the state a `useState` call renders with: `initial` on the first render; with an old state hook, its state with its queue folded in, so `initial` is ignored and an empty queue leaves the old state. It throws (None) iff the old hook at that index is of another kind, whose queue is missing. |
| HookStore.QueuedActionsApplied | my-react/src/myReact.js:282-288 | actions queued by several setter calls are all applied, in call order, on the next render |
| HookStore.EffectChanged | my-react/src/myReact.js:313-315 | the `hasChanged` decision: changed whenever there is no dependency list or no old hook; never changed for an empty list once there is an old hook, whatever its kind. It throws (None) iff a non-empty list meets an old hook without a dependency list, because the source indexes its missing `deps`. |
| HookStore.EffectRunsWhen | my-react/src/myReact.js:313-315 | the effect runs iff deps are absent, or there is no old hook, or some index of the new list differs from the old list there; with a readable old hook the decision never throws |
| HookStore.EffectOnWrongHookThrows | my-react/src/myReact.js:314 | a non-empty list compared against an old hook without a dependency list throws |
| HookStore.ShorterMatchingDepsUnchanged | my-react/src/myReact.js:314 | a list that is a prefix of the old one counts as unchanged |
| HookStore.LongerDepsChanged | my-react/src/myReact.js:314 | a list longer than the old one always counts as changed |
| HookStore.CounterScenario | my-react/src/Counter.js:4-11 | from 0, three `c => c + 1` actions give 3; the `[count]` effect reruns after 0 → 3 and stays quiet when the count is unchanged |
| Positional.DeletedBelow | my-react/src/myReact.js:200-204 | the deleted positions are exactly those without a same-type match (including positions past the last element), in increasing order |
| Positional.UpdatedPlusDeletedIsOld | my-react/src/myReact.js:172-207 | the updated positions plus the deleted positions make up the old chain |
| Positional.SameTypesKeepEveryFiber | my-react/src/myReact.js:176-204 | a list of the same types as before updates every position and deletes nothing |
| Runtime.DeletedFibersFollowPlan | my-react/src/myReact.js:200-207 | the old fibers tagged for deletion are the fibers at the positions the positional plan deletes, in chain order |
| Runtime.NewFiberFields | my-react/src/myReact.js:176-199 | the k-th new fiber has the k-th element's type and props and the reconciled fiber as parent. It is UPDATE iff the old fiber at position k has that type; then it shares that fiber's host node and has it as alternate. Otherwise it is a PLACEMENT with no host node and no alternate. |
| Runtime.ReconciledChildChain | my-react/src/myReact.js:210-217 | afterwards the parent's child chain is exactly the new fibers, one per element and in element order; with no elements and an old chain, the parent has no child |
| Runtime.Engine.ReconcileChildren | my-react/src/myReact.js:166-220 | builds the new fibers, links them in order, and appends exactly the tagged old fibers to `deletions`. Old fibers change only by their DELETION tag and the parent's child link. The engine invariant is kept. The arena and the deletion list are exactly those `Reconcile` computes from the old ones. |
| Runtime.ReconcileMeans | my-react/src/myReact.js:166-220 | the computed reconciliation (`Reconcile`: the reconciler's iterations over the elements and the old child chain) is the one described above: one new fiber per element linked in element order, old fibers changed only by their DELETION tags and the parent's child link, and exactly the unmatched old fibers appended to the deletions, in chain order |
| Runtime.CreateOpsShape | my-react/src/myReact.js:37-48 | `createDom` creates exactly one node, first (a text node for `TEXT_ELEMENT`), then only sets properties and adds listeners on it |
| Runtime.CreateOps | my-react/src/myReact.js:37-48 | `createDom`'s calls: a node creation first, a text node iff the type is `TEXT_ELEMENT`, then only the prop diff of the props against an empty set. So, by `Runtime.CreateOpsSetsAll`, a text node created with its `nodeValue` also gets `nodeValue` set again as a property. |
| Runtime.CreateOpsSetsAll | my-react/src/myReact.js:37-48 | `createDom` sets every plain property and attaches every handler of the props |
| Runtime.Engine.CreateDom | my-react/src/myReact.js:37-48 | allocates a fresh node and logs exactly the `createDom` calls for it |
| Runtime.EnqueuedActionApplied | my-react/src/myReact.js:287-288 | an action pushed by the setter is applied after every action queued before it, on the next render of that hook |
| Runtime.Engine.UseState | my-react/src/myReact.js:272-301 | returns the old state with its queue folded in order, or `initial` on the first render. It appends exactly one hook with an empty queue and bumps the index. It throws, changing nothing, on an old hook of another kind. |
| Runtime.Engine.UseEffect | my-react/src/myReact.js:304-323 | runs the effect at once iff the dependency comparison says changed; appends `{deps}` and bumps the index; throws, changing nothing, where the comparison cannot read old deps |
| Runtime.Engine.UseRef | my-react/src/myReact.js:326-338 | returns the old hook's ref (same cell), or a new cell holding `initial` on the first render; appends the hook and bumps the index |
| Runtime.Engine.CallHook | my-react/src/myReact.js:272-338 | the call does what its primitive does with the old hook at the wip fiber's hook index: it throws, changing nothing, iff the primitive cannot read that old hook; otherwise it hands back the primitive's result, appends exactly the primitive's hook to the wip fiber (no other fiber changes), bumps the index, and runs exactly the primitive's effects and creates exactly its ref cells |
| Runtime.RunHook | my-react/src/myReact.js:272-338 | one hook call, as a value. Only a call with an old hook can throw, and `useRef` never throws. Otherwise the appended hook is of the primitive's own kind, a state hook starts with an empty queue, and at most one effect runs. A ref cell is created only by a first-render `useRef`, holding its initial value. |
| Runtime.RunHooks | my-react/src/myReact.js:141 | the record of a component's hook calls holds one result and one hook per call made, and every call is made when none throws |
| Runtime.RunHooksStopsAtThrow | my-react/src/myReact.js:141 | once a hook call throws, no later call of the component is made |
| Runtime.Engine.CallComponent | my-react/src/myReact.js:141 | the hook calls made are exactly the recorded ones: each chosen from the props and the results before it, each against the old hook at its own index. The results, the wip fiber's new hooks (the only fiber change), the effects run and the ref cells created are that record's. The element is returned iff no call threw, and is the view of the results. |
| Runtime.Engine.WorkComponent | my-react/src/myReact.js:139-142 | the component is called with the fiber's props and the fiber gets exactly the hooks of that call record. When no hook call threw, the element it returns is reconciled as the fiber's only child: the arena and the deletions become exactly `Reconcile` of that one element, which `Runtime.ReconcileMeans` describes. When a call threw, only the fiber's hooks change. The effects run and the ref cells created are the record's. |
| Runtime.Engine.BeginWork | my-react/src/myReact.js:135-137 | the fiber becomes the wip fiber, with an empty hook list and hook index 0 |
| Runtime.Engine.WorkHost | my-react/src/myReact.js:143-148 | a host fiber without a node gets the fresh node, and the handle counter moves on by one; one with a node keeps it and the counter stays. Then its children are reconciled: the arena and the deletions become exactly `Reconcile` of `props.children`. The only host calls are `createDom`'s. |
| Runtime.NextFiber | my-react/src/myReact.js:151-162 | the next unit is the child, else the sibling of the nearest fiber going up, else none |
| FiberArena.NextUnit | my-react/src/myReact.js:151-162 | the fiber after `i` in the walk is an existing fiber: the child when there is one, otherwise a sibling found going up. It is never a root: the search going up stops with none at the root, which has no sibling. |
| FiberArena.RootTraversal | my-react/src/myReact.js:150-162 | from a root, the cursor visits the whole tree in depth-first pre-order, then stops |
| FiberArena.PreOrderFollows | my-react/src/myReact.js:150-162 | after the last fiber of a subtree the cursor moves to the next sibling up from the subtree's root |
| Runtime.Engine.PerformUnitOfWork | my-react/src/myReact.js:134-163 | `UnitDone` holds of the unit, from the engine before to the engine after. The fiber's hooks are reset. A component fiber is then called and its element reconciled, exactly as in the component branch; the unit crashes iff a hook call threw, and the node counter does not move. A host fiber gets its node if it had none, with the counter moving on by one. Its children are reconciled exactly as in the host branch, and the unit never crashes, runs effects or creates cells. Host calls are made only to create a node for a host fiber without one. The returned unit is the cursor's next fiber. |
| Runtime.UnitsChainExtend | my-react/src/myReact.js:118-121 | a unit performed at the fiber the run's last step moved the cursor to, starting from the engine the run left, extends the run |
| Runtime.Engine.PerformNext | my-react/src/myReact.js:119 | one iteration: the unit at the cursor is performed and appended to the run, which stays a run from the same start; the engine is the one that unit left, and a `Next` step names the cursor's next fiber |
| Runtime.Engine.PerformUnits | my-react/src/myReact.js:117-121 | the loop of `workLoop`: at least one unit when there is work, at most a slice's worth, stopping early only when the work is done or a unit throws. The performed units form a run from the starting engine and cursor (`UnitsChain`). `crashed` holds iff the last unit crashed, and then the cursor stays on the fiber that threw. The engine ends as the last unit left it. |
| Runtime.UnitDoneMeans | my-react/src/myReact.js:134-148 | read relationally, a unit of work whose hook calls threw only gives the fiber its hooks and tags nothing; any other unit performs the reconciliation `Reconciled` describes, of the component's element or of the host fiber's children (with its node set) |
| Runtime.Engine.WorkLoop | my-react/src/myReact.js:116-129 | performs at least one unit when there is work and at most a slice's worth. It stops early only when the work is done or a unit throws. The ghost `units` are the units performed, in order: each does what `UnitDone` says, the first at the starting cursor and each later one where the one before ended. Every unit but the last moved the cursor on (`Next`). `crashed` holds iff the last unit crashed, that is iff its component's hook calls threw. The engine is left as the last unit left it, plus the commit. When nothing threw, the cursor is at the next unit after the last one performed; after a throw it stays on the fiber that threw. The node counter and the host log only grow. It commits iff the work is done, nothing threw and there is a wip root; it then promotes the root, and the log ends with that root's commit pass. |
| Runtime.Engine.Render | my-react/src/myReact.js:103-113 | the new wip root holds the container, an existing host node, and the element as its only child, with the current root as alternate; deletions are emptied and the cursor points at the root |
| Runtime.Engine.SetState | my-react/src/myReact.js:287-296 | pushes the action on that hook's queue. A fresh root then aliases the current root's node and props, deletions are emptied and the cursor is reset. Before any commit it throws after the push. |
| Runtime.Engine.CommitRoot | my-react/src/myReact.js:223-228 | the log grows by exactly the commit pass: every deletion committed, in order, before the new tree below the wip root; the wip root then becomes the current root |
| Commit.CommitPassOps | my-react/src/myReact.js:224-225 | the calls are `commitWork` of every queued deletion, in queue order, then of the wip root's child |
| Commit.CommitWork | my-react/src/myReact.js:231-260 | the host calls equal the commit specification: an append or a prop diff against the nearest host node above, then the child's and the sibling's subtrees; a DELETION fiber only removes |
| Commit.CommitDeletion | my-react/src/myReact.js:263-269 | removes the first host node found down the first-child line, or nothing |
| Commit.FindDomParent | my-react/src/myReact.js:237-241 | finds the host node of the nearest fiber holding one, going up |
| FiberArena.DomHolder | my-react/src/myReact.js:237-241 | `i`'s own host node when it has one, else the nearest one going up; the result is always the node of some fiber at or before `i` in the arena. The search never runs off the top, because every root holds a host node. |
| FiberArena.DeletionOps | my-react/src/myReact.js:263-269 | at most one call: removing from the given parent the first host node found down the first-child line, made iff there is one |
| FiberArena.CommitOps | my-react/src/myReact.js:231-260 | the calls `commitWork` makes; it never creates a host node (its soundness and completeness are the two lemmas below) |
| FiberArena.CommitOpsExplained | my-react/src/myReact.js:231-260 | every call of `commitWork(o)` comes from a fiber the walk reaches: an append of a PLACEMENT fiber's node under the nearest host node above it; a removal, from under that same host node, of the first host node below a DELETION fiber; or a call of an UPDATE fiber's prop diff from its alternate's props to its own. It never creates nodes. |
| FiberArena.CommitOpsComplete | my-react/src/myReact.js:231-260 | every fiber the walk reaches gets its calls: a PLACEMENT fiber with a node is appended under the nearest host node above it; an UPDATE fiber with a node gets every call of its prop diff; a DELETION fiber with a host node below it has that node removed |
| FiberArena.DeletionPassOnlyRemoves | my-react/src/myReact.js:224 | the deletion pass only removes host nodes, at most one per entry |
| FiberArena.NoDeletionNoRemoval | my-react/src/myReact.js:231-260 | a walk that reaches no DELETION fiber removes no host node |

## Left out

- Real DOM calls (`document.createElement`, `createTextNode`, `appendChild`,
  `removeChild`, `add/removeEventListener`) are modelled as entries of a
  host-operation log. No browser behaviour is modelled. Node handles are
  fresh counters.
- The event name derived by `name.toLowerCase().substring(2)` is not
  computed. Listener entries carry the prop key itself.
- `requestIdleCallback` and `deadline.timeRemaining()` are host scheduling.
  `Runtime.Engine.WorkLoop` takes the number of units a slice allows in their
  place.
- Calling arbitrary JavaScript component functions is replaced by the
  `Component` value: a fixed number of hook calls followed by a view. A
  component that throws for reasons other than a hook mismatch is not
  modelled.
- JavaScript dynamic typing is left out: `typeof` tests, loose `==`, and
  `null` or array children. A child is either an element or a string,
  number or boolean value that becomes text.
- `Object.is` corner cases (NaN, -0) are float semantics. Values are compared
  with plain equality.
- A setter called while a render pass is in flight, or from inside an effect,
  is not modelled. `Runtime.Engine.SetState` is only called between passes,
  and effects are logged by id, not run.
- The order of keys in a props object is the order of the attribute list.
  Duplicate keys, which a JavaScript object cannot hold, are not excluded.
- HookStore.PlusOne: `c => c + 1` is modelled on numbers only. Other values
  are left unchanged rather than concatenated.
- A hook call that throws (a hook of another kind at the same call-order
  index) is modelled as a `UsageError` outcome.
  - It ends the unit of work with `Crashed`, and `Runtime.Engine.WorkLoop`
    with `crashed`.
  - The exception's unwinding beyond that, including the lost
    `requestIdleCallback` registration, is not modelled.
- Commit.CommitDeletion: where the source reads a missing first child and
  throws (a deleted subtree with no host node on its first-child line), the
  model emits no host call.
- PropDiff.IsGone: JavaScript's `in` also finds keys every object inherits
  from `Object.prototype` (`constructor`, `toString`, `valueOf`,
  `hasOwnProperty`, ...). In the source such a key is never gone, so a
  removed plain prop of that name is not cleared. The model looks only at
  the props' own keys and clears it.
- FiberArena.DomHolder: its contract states that the result is `i`'s own
  node, or else the node of a fiber at or before `i` in the arena. That this
  is the nearest fiber above `i` that holds one is its definition, which the
  commit lemmas use.
- HookStore.LongerDepsChanged: a dependency list holding `undefined`
  entries is not modelled, since `Value` has no `undefined`. In the source,
  an `undefined` entry past the end of the old list equals what it is
  compared with, so a longer list is not always changed there.
- Host node handles already in use when the engine starts, such as the
  container, are the ones below the count given to `Runtime.Engine`'s
  constructor. `Runtime.Engine.Render` requires its container to be a
  handle already issued, that is below the current node counter: one of
  those, or a node the engine created itself. Either way it is an existing
  node, never a handle a later `createDom` will hand out.
- `app.js` (a one-shot DOM builder and demo components) and
  `my-react/babel.config.js` (build configuration) are not part of this
  model.

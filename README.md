# Task-board stores, modelled in Dafny

This project models the in-memory state of a Vue/Pinia task board:

- the **task store** (`src/stores/task.ts`): a visible task list and a filter
  snapshot. It has `setTask`, `addTask`, `updateTask`, `removeTask` and
  `applyFilters`. `applyFilters` filters by status and by normalised
  priority, then optionally sorts by due date.
- the **toast store** (`src/composables/useToast.ts`): an id counter, the
  visible toasts, and one timer per toast that removes it after its lifetime.
- the **confirmation dialog store** (`src/stores/confirmation.ts`).
- the **sidebar store** (`src/stores/sidebar.ts`).
- the class-name helper **`cn`** (`src/util/common.ts`).

Each store is a Dafny `class` whose methods update its fields in place. Each
method is proved against pure specification functions, and lemmas prove what
the source promises about those functions.

JavaScript arrays in the task store are heap objects (`TaskStore.TaskArray`).
`setTask(data)` stores the *same* array in `tasks` and in `initialTasks`, as
the source does. So an `addTask` or `updateTask` that follows writes into the
snapshot as well. `removeTask` and `applyFilters` install a fresh array, and
that ends the sharing. The method contracts state this aliasing.

`setTimeout` is modelled as a clock plus a list of pending timers.
`Toasts.ToastStore.AdvanceTime` lets time pass and runs every timer that has
come due. Each timer run is `removeToast(id)`. A ghost history of every toast
added, with its timer, gives the invariant `Toasts.Consistent`: each timer
is due its toast's lifetime after the toast was added, and the visible toasts
are exactly the added toasts whose timers have not run, less those removed by
hand.

`Array.prototype.sort` is library code. It is modelled as a stable sort by
due date (`TaskFilter.SortByDue`), the behaviour section 23.1.3.30 of
ECMA-262 guarantees. It is proved sorted, a permutation of its input, and
stable.

Files: `wrappers.dfy` (Option), `common.dfy` (`cn`), `sidebar.dfy`,
`confirmation.dfy`, `toast.dfy`, `task_types.dfy` (the task record, ids and
their `toString`), `task_filter.dfy` (the pure parts of the task store) and
`task_store.dfy` (the task store class).

Where the type declaration and the code disagree, the code is followed.
`src/types/task.d.ts:19` declares `id: number`. The schema
(`src/schema/task.ts:36`) and `removeTask(id: string | number)`
(`src/stores/task.ts:28`) also accept string ids. So ids are modelled as
`Num(int) | Str(string)`.

## Model

| member | source | states |
|---|---|---|
| Common.Kept | src/util/common.ts:2 | `filter(Boolean)` keeps only truthy arguments and never adds any |
| Common.Rendered | src/util/common.ts:2 | each kept argument is rendered as `join` renders it, position by position |
| Common.TruthyRendersNonEmpty | src/util/common.ts:2 | a truthy argument never renders as the empty string, so no empty class and no double space appears |
| Common.KeptMembers | src/util/common.ts:2 | an argument survives exactly when it is truthy |
| Common.KeptAppend | src/util/common.ts:2 | the filter keeps the order of the arguments |
| Common.JoinEmpty | src/util/common.ts:2 | joining non-empty parts gives "" exactly when there are no parts |
| Common.CnEmptyIffNoTruthy | src/util/common.ts:2 | `cn` returns "" if and only if no argument is truthy |
| Common.CnAppend | src/util/common.ts:2 | `cn(...a, ...b)` is the two outputs joined by one space when both are non-empty, and by nothing otherwise |
| Common.CnDropsFalsy | src/util/common.ts:2 | dropping a falsy argument anywhere adds no space |
| Common.CnWithUndefined | src/components/data/__test__/test.spec.ts:16-23 | `cn(base, undefined)` with a non-empty base is the base itself |
| Common.CnTwoClasses | src/components/data/__test__/test.spec.ts:26-33 | `cn(base, c)` with both non-empty is `base + " " + c` |
| Common.CnTrue | src/util/common.ts:2 | a lone `true` argument is kept and rendered as "true" |
| Common.SplitJoin | src/util/common.ts:2 | splitting a space-join of space-free, non-empty parts on spaces gives the parts back |
| Common.CnSplitRoundTrip | src/util/common.ts:2 | when no class contains a space, splitting the output of `cn` gives back exactly the truthy arguments, rendered, in order |
| Sidebar.SidebarStore.constructor | src/stores/sidebar.ts:5 | the sidebar starts hidden |
| Sidebar.SidebarStore.ToggleSidebar | src/stores/sidebar.ts:7-9 | the flag is negated, and it is the store's only state |
| Sidebar.ToggleTwice | src/stores/sidebar.ts:7-9 | two toggles restore the original value |
| Confirmation.Shown | src/stores/confirmation.ts:30-36 | every field present in the options wins, every absent one is the default (never the previous dialog's value), and the dialog is visible even when the options say otherwise |
| Confirmation.ShownOptionsOf | src/stores/confirmation.ts:31-35 | showing a dialog's own fields reproduces it, made visible |
| Confirmation.ShownNoOptions | src/stores/confirmation.ts:31-35 | `show({})` is the default dialog made visible |
| Confirmation.Hidden | src/stores/confirmation.ts:42 | answering only clears `visible`; every other field is kept |
| Confirmation.Fire | src/stores/confirmation.ts:39-41 | an answer invokes the callback present, at most once, and nothing when it is absent |
| Confirmation.ConfirmationStore.constructor | src/stores/confirmation.ts:25-27 | the initial dialog is the default: hidden, with no callbacks |
| Confirmation.ConfirmationStore.Show | src/stores/confirmation.ts:30-36 | the dialog becomes `Shown(options)`; the callbacks of the replaced dialog are dropped without being invoked |
| Confirmation.ConfirmationStore.Accept | src/stores/confirmation.ts:38-43 | `onAccept` is invoked once if present, then only `visible` changes, to false; visibility is not checked first |
| Confirmation.ConfirmationStore.Reject | src/stores/confirmation.ts:45-50 | `onReject` is invoked once if present, then only `visible` changes, to false; visibility is not checked first |
| Confirmation.ConfirmationStore.Reset | src/stores/confirmation.ts:52-54 | the dialog is the default again, without callbacks, and nothing is invoked |
| Confirmation.AcceptTwice | src/stores/confirmation.ts:38-43 | accepting a hidden dialog still fires its callback, so two accepts fire it twice |
| TaskTypes.MergeNoChanges | src/stores/task.ts:24 | spreading an empty partial over a task changes nothing |
| TaskTypes.MergePartialOf | src/stores/task.ts:24 | spreading a task's complete record over any task yields that task |
| TaskTypes.MergeIdempotent | src/stores/task.ts:24 | spreading the same partial twice is spreading it once |
| TaskTypes.NatToString | src/stores/task.ts:22 | the decimal form of a natural number is non-empty and made of digits |
| TaskTypes.ParseNatToString | src/stores/task.ts:22 | reading the decimal digits back gives the number |
| TaskTypes.NegativeToString | src/stores/task.ts:22 | a negative number prints as "-" followed by the digits of its magnitude |
| TaskTypes.NonNegativeToString | src/stores/task.ts:22 | a non-negative number prints as its digits, with no sign |
| TaskTypes.NatToStringInjective | src/stores/task.ts:22 | distinct natural numbers print differently |
| TaskTypes.IntToStringInjective | src/stores/task.ts:22 | distinct integers print differently |
| TaskTypes.IdStringSameKind | src/stores/task.ts:22 | between ids of the same kind, equal `toString()` holds if and only if the ids are equal |
| TaskTypes.IdStringAcrossKinds | src/stores/task.ts:30 | the number n and the string of its digits match by `toString()` but are not strictly equal |
| TaskFilter.FindByString | src/stores/task.ts:22 | the index of the first task whose id prints like the given id; -1 when the id is missing or no task matches |
| TaskFilter.FindStrict | src/stores/task.ts:30 | the index of the first task with a strictly equal id; -1 when there is none |
| TaskFilter.UpdatedSpec | src/stores/task.ts:21-26 | `updateTask` keeps the length and every position except the first match, which becomes the merge; a missing id or no match leaves the list unchanged |
| TaskFilter.RemovedSpec | src/stores/task.ts:28-35 | `removeTask` deletes exactly the first strictly equal task: that id's count drops by one, other ids keep their counts, the rest keep their order (re-inserting restores the list), and an absent id leaves the list identical |
| TaskFilter.RemoveIsStrict | src/stores/task.ts:30 | a number id never removes a task whose id is a string |
| TaskFilter.LowerSpec | src/stores/task.ts:41 | `toLowerCase` maps each character on its own and keeps the length |
| TaskFilter.TrimStartSpec | src/stores/task.ts:41 | trimming the front drops exactly the leading white space |
| TaskFilter.TrimEndSpec | src/stores/task.ts:41 | trimming the back drops exactly the trailing white space |
| TaskFilter.FilterKeeps | src/stores/task.ts:38-43 | every element `filter` keeps is accepted by the callback |
| TaskFilter.FilterMultiset | src/stores/task.ts:38-43 | `filter` keeps each accepted element as many times as it occurs, and no other element |
| TaskFilter.FilterAppend | src/stores/task.ts:38-43 | `filter` keeps order: filtering a concatenation filters each part |
| TaskFilter.FilterAllKept | src/stores/task.ts:38-43 | when the callback accepts every element, `filter` returns the sequence unchanged |
| TaskFilter.FilterTasksSpec | src/stores/task.ts:38-43 | a task survives the filter exactly when its status equals `status` and its normalised priority equals the normalised `priority`, each counted only when the argument is truthy |
| TaskFilter.FilterIdentity | src/stores/task.ts:39-41 | absent or empty filter arguments impose no constraint |
| TaskFilter.FilterIdempotent | src/stores/task.ts:38-43 | filtering twice with the same arguments is filtering once |
| TaskFilter.NormalizeIgnoresCase | src/stores/task.ts:41 | lower-casing a priority first does not change its normal form |
| TaskFilter.LowerTwice | src/stores/task.ts:41 | lower-casing is idempotent |
| TaskFilter.NormalizeIgnoresPadding | src/stores/task.ts:41 | padding a priority with characters `trim` strips does not change its normal form |
| TaskFilter.InsertMultiset | src/stores/task.ts:44-54 | inserting a task adds exactly that task |
| TaskFilter.InsertSorted | src/stores/task.ts:44-54 | inserting into a sorted list keeps it sorted |
| TaskFilter.InsertStable | src/stores/task.ts:44-54 | an inserted task goes after the tasks due at the same time |
| TaskFilter.SortMultiset | src/stores/task.ts:44-54 | the sort is a permutation of its input |
| TaskFilter.SortSorted | src/stores/task.ts:44-54 | the sort's output is ordered by due date, ascending or descending |
| TaskFilter.SortStable | src/stores/task.ts:44-54 | tasks due at the same time keep their relative order |
| TaskFilter.SortByDueSpec | src/stores/task.ts:44-54 | the sort is a permutation with non-decreasing timestamps (non-increasing for "dueDateDesc") that keeps ties in their original order |
| TaskFilter.ViewSpec | src/stores/task.ts:37-55 | without a recognised `sortBy` the list is the filtered snapshot in snapshot order; with "dueDate" or "dueDateDesc" it is a permutation of it, in that order |
| TaskStore.TaskArray.constructor | src/stores/task.ts:33 | a new array holds the given elements |
| TaskStore.TaskArray.Push | src/stores/task.ts:12 | `push` appends exactly one element, in place |
| TaskStore.TaskArray.Put | src/stores/task.ts:24 | a slot write changes that slot only, in place |
| TaskStore.TaskArray.SortByDueDate | src/stores/task.ts:46-52 | the in-place sort leaves the stable due-date order of the old contents |
| TaskStore.Store.constructor | src/stores/task.ts:5-7 | both lists start empty, in two separate arrays |
| TaskStore.Store.SetTask | src/stores/task.ts:16-19 | the list and the snapshot both become `data`, the same array |
| TaskStore.Store.AddTask | src/stores/task.ts:11-14 | the task is appended to the list, and to the snapshot exactly when the two share one array; no ref is reassigned |
| TaskStore.Store.UpdateTask | src/stores/task.ts:21-26 | the list becomes `Updated(list, p)` in place, and the snapshot too exactly when the two share one array |
| TaskStore.Store.RemoveTask | src/stores/task.ts:28-35 | the list becomes `Removed(list, id)` and the snapshot is untouched; when the id is found, a fresh array ends any sharing, and otherwise nothing changes |
| TaskStore.Store.ApplyFilters | src/stores/task.ts:37-56 | the list becomes a fresh array holding `View(snapshot, status, priority, sortBy)`; the snapshot is only read |
| TaskStore.ApplyFiltersTwice | src/stores/task.ts:37-56 | two identical `applyFilters` calls in a row leave the same list |
| TaskStore.AddBeforeAndAfterFilter | src/stores/task.ts:11-19 | after `setTask(data)` an added task also reaches `data`; after `applyFilters` the next added task reaches only the visible list |
| Toasts.WithIdRoundTrip | src/composables/useToast.ts:54 | the stored toast is the input plus its id; no default life is written into it |
| Toasts.LifetimeSpec | src/composables/useToast.ts:55 | the delay is `life` when it is truthy, otherwise 3000 (absent or 0), and is never 0 |
| Toasts.FiredIffDeadline | src/composables/useToast.ts:75-79 | with a positive delay, a timer has run exactly when its deadline has been reached |
| Toasts.RemoveByIdIsKeep | src/composables/useToast.ts:66 | removing one id keeps every toast with another id, in order |
| Toasts.KeepKeep | src/composables/useToast.ts:66 | removals accumulate and commute |
| Toasts.KeepNone | src/composables/useToast.ts:66 | removing ids no toast carries changes nothing |
| Toasts.KeepMembers | src/composables/useToast.ts:66 | a toast survives exactly when its id is not removed |
| Toasts.RemoveByIdSpec | src/composables/useToast.ts:65-67 | `removeToast(id)` drops every toast with that id, keeps the others, and leaves the list unchanged for an unknown id |
| Toasts.RemoveByIdTwice | src/composables/useToast.ts:75-79 | a timer that runs after its toast was removed by hand changes nothing |
| Toasts.VisibleMembers | src/composables/useToast.ts:75-79 | a toast is visible exactly when it was added and its timer has not run |
| Toasts.PendingAdvance | src/composables/useToast.ts:75-79 | letting time pass runs exactly the pending timers that come due |
| Toasts.VisibleAdvance | src/composables/useToast.ts:75-79 | removing the toasts of the timers that come due leaves exactly the toasts whose timers have not run |
| Toasts.KeptVisibleIncreasing | src/composables/useToast.ts:53-54 | toasts drawn from the numbered history have strictly increasing ids, each between 1 and the counter |
| Toasts.AddKeepsConsistent | src/composables/useToast.ts:52-56 | `addToast` keeps the store's invariant, including that each timer is due its toast's lifetime after the toast was added |
| Toasts.RemoveKeepsConsistent | src/composables/useToast.ts:65-67 | `removeToast` keeps the store's invariant |
| Toasts.AdvanceKeepsConsistent | src/composables/useToast.ts:75-79 | running the due timers keeps the store's invariant |
| Toasts.NoRemovalsVisible | src/composables/useToast.ts:75-79 | with no removal by hand, a toast is visible exactly when it was added at a time `a` and the clock has not both moved past `a` and reached `a + Lifetime(life)`; when every lifetime is positive, exactly when `a + Lifetime(life)` has not been reached |
| Toasts.ToastStore.constructor | src/composables/useToast.ts:37-38 | a fresh store has no toasts and a counter of 0 |
| Toasts.ToastStore.AddToast | src/composables/useToast.ts:52-56 | the counter is bumped first and used as the new id, which exceeds every id handed out before; the toast is appended, its timer is scheduled `Lifetime(life)` ms from now, and the history records the toast with that timer |
| Toasts.ToastStore.RemoveToastAfterDelay | src/composables/useToast.ts:75-79 | one timer is scheduled, due `life` ms from now |
| Toasts.ToastStore.RemoveToast | src/composables/useToast.ts:65-67 | the list becomes `RemoveById(list, id)`; the counter, clock and timers are unchanged |
| Toasts.ToastStore.AdvanceTime | src/composables/useToast.ts:75-79 | the clock moves on, the timers that come due are run as `removeToast`, and the rest stay pending |
| Toasts.RunOne | src/composables/useToast.ts:76-78 | running one more timer adds its id to the fired ids, or adds the timer to the pending ones |
| Toasts.RunDue | src/composables/useToast.ts:76-78 | running the due timers in order leaves the toasts whose ids did not fire and the timers not yet due |
| Toasts.AddTwo | src/composables/__test__/toast.spec.ts:94-106 | two toasts added at time 0 get ids 1 and 2, with timers due at 2000 and 5000 |
| Toasts.FirstOfTwoRuns | src/composables/__test__/toast.spec.ts:108-111 | at 2000 ms only the first timer has run, and only the second toast is left |
| Toasts.SecondOfTwoRuns | src/composables/__test__/toast.spec.ts:113-115 | at 5000 ms the second timer runs too |
| Toasts.ExpireShort | src/composables/__test__/toast.spec.ts:108-111 | 2000 ms after the two adds, the store holds only the "Long Life" toast |
| Toasts.ExpireLong | src/composables/__test__/toast.spec.ts:113-115 | 3000 ms later the store holds no toast and no timer |

## Left out

- `src/composables/useFetch.ts` and `src/composables/useMutation.ts` are not part of this model. They do asynchronous network I/O.
- `src/composables/useClickOutside.ts` is not part of this model. It is DOM event handling.
- Components, views and their CSS classes are not modelled. `table.tsx` appears only as the caller of `cn` in two lemmas.
- `generateRandomId` (`src/util/common.ts:5-7`) is not modelled: it uses `Math.random` and floating point.
- Vue and Pinia reactivity (`ref`, `computed`, proxies) is not modelled. Refs are plain fields, except for the task arrays, which are heap objects so that their sharing is kept.
- TaskStore.ApplyFilters: `new Date(dueDate).getTime()` is taken as a given integer timestamp (`Task.dueDate: int`). Invalid dates give NaN comparisons and an implementation-defined order, which is not modelled.
- TaskFilter.Normalize: `toLowerCase` is modelled for ASCII letters only. Trimming uses ECMAScript's white-space and line-terminator code points.
- TaskTypes.IntToString: JavaScript prints numbers of magnitude 1e21 or more in exponent form, and non-integers with a fraction. Ids are modelled as unbounded integers printed in plain decimal.
- TaskTypes.Merge: a partial field that is present but explicitly `undefined` overwrites with `undefined` in JavaScript. Here a field is either present with a value or absent.
- TaskTypes.Task: the id is required. An entity without an id is not modelled.
- TaskStore.Store.SetTask: the caller's `data` array is shared with the store. Since `TaskArray` is a heap object, every reference to it sees the store's in-place writes, as in JavaScript. Nothing about this sharing is left out.
- Confirmation.ConfirmationStore.Accept: callbacks are opaque tokens recorded in `fired`. A callback that itself calls `show` or `reset` before `visible` is cleared is not modelled. Callbacks are assumed to return normally. In the source (`src/stores/confirmation.ts:39-42`), an `onAccept` that throws propagates to the caller before `visible = false` runs, so the dialog stays visible. The model always hides it.
- Confirmation.ConfirmationStore.Reject: as for Accept, `onReject` is an opaque token assumed to return normally. In the source (`src/stores/confirmation.ts:46-49`), one that throws leaves the dialog visible and propagates to the caller, and one that calls `show` or `reset` re-enters the store. Neither case is modelled.
- Toasts.ToastStore.AddToast: the in-place `push` is modelled as reassigning the `toasts` sequence, which covers only the store's own reference. The store hands its array to callers (`src/composables/useToast.ts:81-85`). A caller that keeps it sees later pushes but not the fresh array `removeToast` installs, and that sharing is not modelled.
- Toasts.ToastStore.AddToast: the input type has no `id` field. The source builds `{ id: toastId, ...toast }` (`src/composables/useToast.ts:52-56`), so an input that does carry an `id` keeps that `id` and the counter is not used. TypeScript's structural typing lets such an input through, e.g. a stored `Toast` passed back in. The counter still advances, and the timer is still set for the counter value. So that timer removes nothing, and the stored ids are no longer strictly increasing or unique. `IdsIncreasing` in `Consistent` and the postcondition that the new toast's id is the counter hold only for inputs without an `id`.
- Toasts.ToastStore.RemoveToastAfterDelay: the timer is due `life` ms later for every integer `life`. The host converts a `setTimeout` delay to a 32-bit signed integer: browsers wrap delays of 2^31 ms or more, and Node and fake timers clamp them to 1 ms. So a toast with such a life disappears almost at once in the source but stays for its full life in the model.
- Confirmation.Shown: an option present with the value `undefined` overwrites the default with `undefined` in JavaScript. Here an option is either present with a value or absent, and an absent one takes the default.
- Toasts.Lifetime: `life` is an integer. A fractional or NaN life is not modelled.
- Toasts.Fired: a negative delay behaves like 0 (the timer runs at the next tick), per the rule `scheduledAt < clock`.
- Toasts.ToastStore.AdvanceTime: the timers that come due within one advance run in the order they were scheduled, not in deadline order. Their removals commute (`Toasts.KeepKeep`), so the resulting list is the same.
- Toasts.ToastStore.AdvanceTime requires `ms > 0`. Advancing by 0 runs nothing.
- Toasts.ToastStore.RemoveToastAfterDelay: the real timer queue and event loop are not modelled. Only the clock and the pending list are.

# Task-list state engine of restack, in Dafny

restack is a small desktop task-list manager. Its state engine lives in
`src/App.tsx` and holds an ordered list of tasks, each a name plus a
creation timestamp (`createdAt`, milliseconds) that doubles as the task's
identity. The user can add a task at the front or the back of the list,
gated on the name check. The user can also remove a task by clicking it,
rename it (behind a yes/no confirmation), copy its name into the input
box, drag it onto another position (behind a confirmation), toggle the
toolbar, and save the list to a key-value store. At start-up the list and
the toolbar flag are read back from that store.

This project models that engine as pure functions over immutable values:

- `options.dfy` (`Options`): an `Option` type.
- `validation.dfy` (`Validation`): the name gate `checkTaskRequirements`, the
  space-stripping it performs and the 60-character limit.
- `tasklist.dfy` (`TaskList`): the `Task` record and the sequence operations
  behind removal, renaming, name lookup and swapping, with their lemmas.
- `persistence.dfy` (`Persistence`): the store as two maps, one per stored
  value shape, with the keys `"task_list"` and `"toolbar_shown"`.
- `app.dfy` (`App`): the application state (list, toolbar flag, advisory
  line) and one function per user action.
- `properties.dfy` (`Properties`): invariants across actions (unique
  identities, valid names), the store round trip, and a worked scenario.

Everything the source reads from outside is a parameter:
- the clock reading (`now`);
- the text of the input box (`Option<string>`, where `None` means the box is not mounted, as when the toolbar is hidden);
- the user's answer to a confirmation dialog (`confirmed`);
- the two drag indices.

A confirmation-gated action returns a `Gated` value. It holds the new
state and the prompt it showed, or `None` when it returned before asking.

The model follows the code as written:
- The name gate strips only the space character `' '`. Tabs and newlines count as content.
- Removal filters out every task with the identity, not only one. With unique identities this deletes exactly one position (`TaskList.WithoutUniqueDeletes`).
- Renaming refuses only the empty string. It does not apply the space check or the length check (`Properties.EditBypassesNameGate`).
- The toolbar flag is read at start-up, but nothing in this file ever writes it.
- A stored payload is not checked for shape before it replaces the list.

## Model

| member | source | states |
|---|---|---|
| Validation.StripSpaces | src/App.tsx:108 | splitting at `' '` and joining leaves no space and is no longer than the input; the result is empty exactly when the input is spaces only |
| Validation.StripSpacesCounts | src/App.tsx:108 | every character other than a space is kept exactly as often as it occurs |
| Validation.StripSpacesAppend | src/App.tsx:108 | stripping spaces keeps the order of the remaining characters (it distributes over concatenation) |
| Validation.StripSpacesIdempotent | src/App.tsx:108 | stripping spaces twice is stripping them once |
| Validation.CheckTaskRequirements | src/App.tsx:104-123 | a name is accepted iff the box is mounted, the name is not spaces only, and its length is at most 60. The length test runs last, so an over-long name gets the length advisory even when it is blank. A blank name within the limit gets the add-task advisory. A missing box refuses without writing an advisory |
| Validation.CheckExamples | src/App.tsx:104-123 | the gate's verdicts: `"   "` is refused as empty, a tab is accepted, 61 `x` or 61 spaces are refused as too long, 60 `x` and `"buy milk"` are accepted, and a missing box is refused silently |
| TaskList.Without | src/App.tsx:171-175 | after removal no task carries the identity and the list is no longer |
| TaskList.WithoutMissing | src/App.tsx:171-175 | removing an identity no task carries returns the list unchanged, element for element |
| TaskList.WithoutAppend | src/App.tsx:171-175 | removal keeps relative order: it distributes over concatenation |
| TaskList.WithoutCounts | src/App.tsx:171-175 | removal drops every task of the identity and keeps every other task exactly as often as it occurred |
| TaskList.WithoutSplice | src/App.tsx:171-175 | removing the identity of a task flanked by lists without it deletes just that task |
| TaskList.WithoutUniqueDeletes | src/App.tsx:171-175 | with unique identities, removing the identity at position k yields the list with just position k deleted |
| TaskList.WithoutPreservesUnique | src/App.tsx:171-175 | removal keeps identities unique |
| TaskList.Renamed | src/App.tsx:248-254 | renaming keeps the length and every position's identity; tasks with the identity get the new name and all others keep theirs |
| TaskList.RenamedMissing | src/App.tsx:248-254 | renaming an identity no task carries changes nothing |
| TaskList.RenamedTwice | src/App.tsx:248-254 | renaming twice equals renaming once to the second name |
| TaskList.RenamedPreservesUnique | src/App.tsx:248-254 | renaming keeps identities unique |
| TaskList.LastNameOf | src/App.tsx:259-265 | the lookup finds a name iff some task carries the identity; the name found is that of a matching task after which no other task matches (the last match wins) |
| TaskList.LastNameOfUnique | src/App.tsx:259-265 | with unique identities the lookup yields the name of the one task that has the identity |
| TaskList.LastNameOfRenamed | src/App.tsx:248-265 | after a rename, looking up the identity yields the new name |
| TaskList.LastNameOfWithout | src/App.tsx:171-175 | after a removal, looking up the identity finds nothing |
| TaskList.Swapped | src/App.tsx:362-382 | positions d and t hold each other's old tasks, every other position is unchanged, and the result is a permutation of the list |
| TaskList.SwappedInvolution | src/App.tsx:362-382 | swapping the same positions again restores the list |
| TaskList.SwappedSymmetric | src/App.tsx:362-382 | swapping d with t equals swapping t with d |
| TaskList.SwappedPreservesUnique | src/App.tsx:362-382 | a swap keeps identities unique |
| Persistence.SaveTaskList | src/App.tsx:78-81 | a save stores the whole list under `"task_list"`, replacing what was there. Every other list entry and every flag is kept |
| Persistence.LoadTaskList | src/App.tsx:88-94 | with `"task_list"` present the stored list replaces the held one; with it absent the held list is kept |
| Persistence.LoadToolbarShown | src/App.tsx:96-102 | with `"toolbar_shown"` present the stored flag replaces the held one; with it absent the held flag is kept |
| Persistence.SaveThenLoad | src/App.tsx:78-94 | a load right after a save yields exactly the saved list, whatever was held |
| Persistence.SaveTwice | src/App.tsx:78-81 | the last save wins |
| Persistence.SaveKeepsToolbarFlag | src/App.tsx:78-102 | saving the list does not change the toolbar flag a later load sees |
| App.AddTop | src/App.tsx:149-158 | an accepted name becomes a new task at index 0, stamped with the clock reading, and the old tasks follow in order; the advisory is cleared. A name over 60 characters changes only the advisory, to the length advisory. A spaces-only name within the limit changes only the advisory, to the add-task advisory. A missing box changes nothing |
| App.AddBottom | src/App.tsx:160-169 | an accepted name becomes a new task at the last index and the earlier tasks are untouched; the advisory is cleared. A name over 60 characters changes only the advisory, to the length advisory. A spaces-only name within the limit changes only the advisory, to the add-task advisory. A missing box changes nothing |
| App.RemoveTask | src/App.tsx:171-175 | the list becomes the order-preserving filter `Without`. Every task of the identity is dropped and every other task is kept as often as it occurred. The identity is gone afterwards and the list is no longer. Removing an absent identity changes nothing |
| App.EditEntry | src/App.tsx:228-257 | the dialog is shown iff the box holds a non-empty name. An empty name writes the edit advisory only, and a declined dialog or a missing box changes nothing. A confirmed edit keeps length, order and identities, renames exactly the matching tasks, and clears the advisory |
| App.CopyEntryName | src/App.tsx:259-265 | the box ends up holding the name of the last task with the identity; with no such task it is untouched, and a missing box stays missing |
| App.SwapListItems | src/App.tsx:361-386 | equal indices return before any dialog with nothing changed. Otherwise the dialog names the 1-based positions; a decline changes nothing and a yes exchanges the two tasks, leaving a permutation with all other positions unchanged |
| App.ToggleToolbarVisibility | src/App.tsx:125-131 | the toolbar flag flips and nothing else changes |
| App.SaveAll | src/App.tsx:83-86 | after the save button, a load from the store yields the current list, and the flags in the store are untouched |
| App.GetTaskList | src/App.tsx:88-94 | a stored list replaces the held list wholesale; with the key absent the state is unchanged |
| App.GetToolbarShown | src/App.tsx:96-102 | a stored flag replaces the held flag; with the key absent the state is unchanged |
| App.Startup | src/App.tsx:388-392 | at start-up the list is the stored one or empty, the toolbar flag is the stored one or shown, and the advisory is blank |
| Properties.AddTopPreservesUnique | src/App.tsx:149-158 | adding at the front with a timestamp no task carries keeps identities unique |
| Properties.AddBottomPreservesUnique | src/App.tsx:160-169 | adding at the back with a timestamp no task carries keeps identities unique |
| Properties.IncreasingClockKeepsIdsUnique | src/App.tsx:149-169 | when every identity is older than the clock reading used for an add, either add button keeps identities unique and all older than any later reading. So a strictly increasing clock keeps identities unique |
| Properties.MutationsPreserveUnique | src/App.tsx:171-386 | remove, edit and swap keep identities unique |
| Properties.AddsPreserveValidNames | src/App.tsx:149-169 | the add buttons only ever insert names that pass the gate |
| Properties.WithoutKeepsValidNames | src/App.tsx:171-175 | every task a removal keeps was already in the list, so valid names stay valid |
| Properties.RemoveAndSwapPreserveValidNames | src/App.tsx:171-386 | removal and swapping keep every name valid |
| Properties.EditBypassesNameGate | src/App.tsx:231-254 | a confirmed edit can store a blank name or a 61-character name, breaking the name invariant the add buttons keep |
| Properties.SaveThenStartup | src/App.tsx:78-94 | saving and then starting up restores exactly the saved list and leaves the toolbar flag as the store had it |
| Properties.StartupFromEmptyStore | src/App.tsx:54-58 | an empty store starts with no tasks, the toolbar shown and a blank advisory |
| Properties.ToggleTwice | src/App.tsx:125-131 | toggling the toolbar twice is the identity |
| Properties.TopThenBottom | src/App.tsx:149-169 | a valid name added at the front, then at the back at another instant, ends up first and last with distinct identities |
| Properties.EditThenCopy | src/App.tsx:228-265 | copying the name of a task just renamed yields the new name |
| Properties.Scenario | src/App.tsx:149-175 | adding A then B at the front gives [B, A]; a confirmed swap of positions 0 and 1 gives [A, B]; removing A gives [B] |

## Left out

- Rendering, animation and the hover show/hide helpers that look elements up by DOM id (src/App.tsx:181-222, 421-623): presentation only.
- The dialog wrapper `showDialog` (src/App.tsx:288-326): each confirmation is a boolean parameter and the prompt is an abstract `Prompt` value. The wording and title are not modelled. The swap dialog passes its title and message in the opposite order to the edit dialog; that is cosmetic.
- The informational "saved" dialog of the save button (src/App.tsx:85): output only.
- The store's file I/O and `store.save()`: the store is two in-memory maps with no durability semantics. Because each map holds one value shape, a payload of the wrong shape cannot be represented; the source does not check shape either.
- `Date.now()`: the timestamp is a parameter. Nothing in the source guarantees that two adds get distinct timestamps. The uniqueness lemmas therefore take freshness as a hypothesis.
- The shared drag markers and the interleaving of asynchronous handlers (src/App.tsx:64-65, 545-553): a swap takes its two indices explicitly. Edit and swap act on the list as it was when they started, which is what the model does too.
- App.SwapListItems: requires both indices to be positions of the list when they differ. The drag handlers only supply rendered positions, and an out-of-range write would leave holes in the JavaScript array, which a Dafny sequence cannot hold.
- App.EditEntry and App.CopyEntryName: when the input box is not mounted, the ref is null. Reading `.value` (src/App.tsx:229) or writing it (src/App.tsx:262) then raises a TypeError; the `!` is only a type-level assertion. The model treats that as an aborted action that changes nothing.
- String length: the source counts UTF-16 code units. The model counts Dafny characters, so a name with characters outside the Basic Multilingual Plane is measured shorter than the source measures it.
- The live character counter and the input box's 999-character limit (src/App.tsx:137-143, 491, 506-519): UI state.
- `gradientFunction` (src/App.tsx:403-408): floating-point colour math, cosmetic.
- The commented-out notification and scheduling stubs (src/App.tsx:271-282, 328-350): not implemented in the source.

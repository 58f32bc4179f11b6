/** The key-value store the task list and the toolbar flag are kept in. The
    store is a pair of maps from key to value, one for each value shape the
    application writes or reads; writing to disk is not modelled. */
module Persistence {
  import opened TaskList

  /** Key the whole task list is saved under. */
  const TASK_LIST_KEY: string := "task_list"

  /** Key the toolbar flag is read from. */
  const TOOLBAR_SHOWN_KEY: string := "toolbar_shown"

  datatype Store = Store(taskLists: map<string, seq<Task>>, flags: map<string, bool>)

  /** Writes the whole list under TASK_LIST_KEY, replacing what was there;
      every other entry is kept. */
  function SaveTaskList(store: Store, tasks: seq<Task>): (r: Store)
    ensures TASK_LIST_KEY in r.taskLists && r.taskLists[TASK_LIST_KEY] == tasks
    ensures r.taskLists.Keys == store.taskLists.Keys + {TASK_LIST_KEY}
    ensures forall k | k in store.taskLists && k != TASK_LIST_KEY ::
              r.taskLists[k] == store.taskLists[k]
    ensures r.flags == store.flags
  {
    store.(taskLists := store.taskLists[TASK_LIST_KEY := tasks])
  }

  /** The list a load produces: the stored one when the key is present,
      otherwise the list currently held. */
  function LoadTaskList(store: Store, current: seq<Task>): (r: seq<Task>)
    ensures TASK_LIST_KEY in store.taskLists ==> r == store.taskLists[TASK_LIST_KEY]
    ensures TASK_LIST_KEY !in store.taskLists ==> r == current
  {
    if TASK_LIST_KEY in store.taskLists then store.taskLists[TASK_LIST_KEY] else current
  }

  /** The toolbar flag a load produces: the stored one when the key is
      present, otherwise the flag currently held. */
  function LoadToolbarShown(store: Store, current: bool): (r: bool)
    ensures TOOLBAR_SHOWN_KEY in store.flags ==> r == store.flags[TOOLBAR_SHOWN_KEY]
    ensures TOOLBAR_SHOWN_KEY !in store.flags ==> r == current
  {
    if TOOLBAR_SHOWN_KEY in store.flags then store.flags[TOOLBAR_SHOWN_KEY] else current
  }

  /** A load right after a save yields exactly the saved list, whatever was
      held before. */
  lemma SaveThenLoad(store: Store, saved: seq<Task>, current: seq<Task>)
    ensures LoadTaskList(SaveTaskList(store, saved), current) == saved
  {
  }

  /** The last save wins: saving twice is saving the second list once. */
  lemma SaveTwice(store: Store, first: seq<Task>, second: seq<Task>)
    ensures SaveTaskList(SaveTaskList(store, first), second) == SaveTaskList(store, second)
  {
  }

  /** Saving the list does not disturb the toolbar flag a later load sees. */
  lemma SaveKeepsToolbarFlag(store: Store, saved: seq<Task>, current: bool)
    ensures LoadToolbarShown(SaveTaskList(store, saved), current) == LoadToolbarShown(store, current)
  {
  }
}

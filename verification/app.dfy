/** The application's state engine: the task list, the toolbar flag and the
    advisory line, with one function per user action. Everything the source
    reads from outside is a parameter: the text in the input box (None when
    the box is not mounted), the clock reading, the user's answer to a
    confirmation dialog and the two drag indices. */
module App {
  import opened Options
  import opened Validation
  import opened TaskList
  import opened Persistence

  datatype AppState = AppState(tasks: seq<Task>, toolbarShown: bool, info: InfoLine)

  /** The state at process start: no tasks, toolbar shown, blank advisory. */
  const Initial: AppState := AppState([], true, Blank)

  /** The question a gated action puts to the user; move positions are
      1-based, as the dialog shows them. */
  datatype Prompt = EditTaskName | MoveItem(from: nat, to: nat)

  /** The state after a confirmation-gated action, and the prompt it showed
      (None when it returned before asking). */
  datatype Gated = Gated(state: AppState, asked: Option<Prompt>)

  /** The input box holds a name the add buttons accept. */
  predicate Accepts(input: Option<string>) {
    input.Some? && ValidName(input.value)
  }

  /** The state after the gate refused the input: only the advisory it wrote
      (if any) changes. */
  function Refused(s: AppState, c: Check): AppState {
    s.(info := c.message.GetOr(s.info))
  }

  /** Insert a task named after the input box, stamped `now`, at the front. */
  function AddTop(s: AppState, input: Option<string>, now: int): (r: AppState)
    ensures Accepts(input) ==>
              && |r.tasks| == |s.tasks| + 1
              && r.tasks[0] == Task(input.value, now)
              && r.tasks[1..] == s.tasks
              && r.info == Blank
    ensures !Accepts(input) ==> r.tasks == s.tasks
    ensures input.Some? && |input.value| > MAX_TASK_NAME_LENGTH ==> r == s.(info := NameTooLongHint)
    ensures input.Some? && |input.value| <= MAX_TASK_NAME_LENGTH && SpaceOnly(input.value) ==>
              r == s.(info := AddTaskHint)
    ensures input.None? ==> r == s
    ensures r.toolbarShown == s.toolbarShown
  {
    var c := CheckTaskRequirements(input);
    if c.accepted then s.(tasks := [Task(input.value, now)] + s.tasks, info := Blank)
    else Refused(s, c)
  }

  /** Insert a task named after the input box, stamped `now`, at the back. */
  function AddBottom(s: AppState, input: Option<string>, now: int): (r: AppState)
    ensures Accepts(input) ==>
              && |r.tasks| == |s.tasks| + 1
              && r.tasks[|s.tasks|] == Task(input.value, now)
              && r.tasks[..|s.tasks|] == s.tasks
              && r.info == Blank
    ensures !Accepts(input) ==> r.tasks == s.tasks
    ensures input.Some? && |input.value| > MAX_TASK_NAME_LENGTH ==> r == s.(info := NameTooLongHint)
    ensures input.Some? && |input.value| <= MAX_TASK_NAME_LENGTH && SpaceOnly(input.value) ==>
              r == s.(info := AddTaskHint)
    ensures input.None? ==> r == s
    ensures r.toolbarShown == s.toolbarShown
  {
    var c := CheckTaskRequirements(input);
    if c.accepted then s.(tasks := s.tasks + [Task(input.value, now)], info := Blank)
    else Refused(s, c)
  }

  /** Clicking a task's name removes every task of its identity. */
  function RemoveTask(s: AppState, id: int): (r: AppState)
    ensures r.tasks == Without(s.tasks, id)
    ensures !HasId(r.tasks, id)
    ensures |r.tasks| <= |s.tasks|
    ensures forall x: Task :: multiset(r.tasks)[x] == if x.createdAt == id then 0 else multiset(s.tasks)[x]
    ensures !HasId(s.tasks, id) ==> r == s
    ensures r.toolbarShown == s.toolbarShown && r.info == s.info
  {
    var r := s.(tasks := Without(s.tasks, id));
    assert forall x: Task :: multiset(r.tasks)[x] == if x.createdAt == id then 0 else multiset(s.tasks)[x] by {
      forall x: Task
        ensures multiset(r.tasks)[x] == if x.createdAt == id then 0 else multiset(s.tasks)[x]
      {
        WithoutCounts(s.tasks, id, x);
      }
    }
    assert !HasId(s.tasks, id) ==> r == s by {
      if !HasId(s.tasks, id) {
        WithoutMissing(s.tasks, id);
      }
    }
    r
  }

  /** Rename the tasks of identity `id` to the input box's text. An empty box
      writes the edit advisory and asks nothing; otherwise the user is asked,
      and only a yes renames. The add buttons' space and length checks are
      NOT applied here. An unmounted box aborts the action. */
  function EditEntry(s: AppState, input: Option<string>, id: int, confirmed: bool): (r: Gated)
    ensures r.asked.Some? <==> input.Some? && input.value != ""
    ensures r.asked.Some? ==> r.asked == Some(EditTaskName)
    ensures input.None? ==> r.state == s
    ensures input == Some("") ==> r.state == s.(info := EditHint)
    ensures input.Some? && input.value != "" && !confirmed ==> r.state == s
    ensures input.Some? && input.value != "" && confirmed ==>
              && |r.state.tasks| == |s.tasks|
              && (forall k | 0 <= k < |s.tasks| ::
                    && r.state.tasks[k].createdAt == s.tasks[k].createdAt
                    && r.state.tasks[k].name ==
                         (if s.tasks[k].createdAt == id then input.value else s.tasks[k].name))
              && r.state.info == Blank
    ensures r.state.toolbarShown == s.toolbarShown
  {
    match input
    case None => Gated(s, None)
    case Some(newName) =>
      if |newName| == 0 then Gated(s.(info := EditHint), None)
      else if !confirmed then Gated(s, Some(EditTaskName))
      else Gated(s.(tasks := Renamed(s.tasks, id, newName), info := Blank), Some(EditTaskName))
  }

  /** The input box's text after the copy button of identity `id`: each task
      of that identity, in list order, overwrites the box with its name. An
      unmounted box aborts the action at the first match. */
  method CopyEntryName(tasks: seq<Task>, id: int, box: Option<string>) returns (after: Option<string>)
    ensures !HasId(tasks, id) ==> after == box
    ensures box.None? ==> after.None?
    ensures box.Some? && HasId(tasks, id) ==> after == LastNameOf(tasks, id)
  {
    after := box;
    var i := 0;
    while i < |tasks|
      invariant 0 <= i <= |tasks|
      invariant box.None? ==> after.None?
      invariant !HasId(tasks[..i], id) ==> after == box
      invariant box.Some? && HasId(tasks[..i], id) ==> after == LastNameOf(tasks[..i], id)
    {
      assert tasks[..i + 1][..i] == tasks[..i];
      if tasks[i].createdAt == id {
        if after.None? {
          return;
        }
        after := Some(tasks[i].name);
        assert tasks[..i + 1][i] == tasks[i];
      } else {
        assert HasId(tasks[..i + 1], id) ==> HasId(tasks[..i], id) by {
          if HasId(tasks[..i + 1], id) {
            var j :| 0 <= j < i + 1 && tasks[..i + 1][j].createdAt == id;
            assert tasks[..i][j] == tasks[j];
          }
        }
      }
      i := i + 1;
    }
    assert tasks[..i] == tasks;
  }

  /** Dropping the task dragged from position `d` onto position `t`. Equal
      positions return before any dialog; otherwise the user is asked, and a
      yes exchanges the two tasks. */
  function SwapListItems(s: AppState, d: nat, t: nat, confirmed: bool): (r: Gated)
    requires d == t || (d < |s.tasks| && t < |s.tasks|)
    ensures d == t ==> r == Gated(s, None)
    ensures d != t ==> r.asked == Some(MoveItem(d + 1, t + 1))
    ensures d != t && !confirmed ==> r.state == s
    ensures d != t && confirmed ==>
              && |r.state.tasks| == |s.tasks|
              && r.state.tasks[d] == s.tasks[t]
              && r.state.tasks[t] == s.tasks[d]
              && (forall k | 0 <= k < |s.tasks| && k != d && k != t :: r.state.tasks[k] == s.tasks[k])
              && multiset(r.state.tasks) == multiset(s.tasks)
    ensures r.state.toolbarShown == s.toolbarShown && r.state.info == s.info
  {
    if d == t then Gated(s, None)
    else if !confirmed then Gated(s, Some(MoveItem(d + 1, t + 1)))
    else Gated(s.(tasks := Swapped(s.tasks, d, t)), Some(MoveItem(d + 1, t + 1)))
  }

  /** Show a hidden toolbar, hide a shown one. */
  function ToggleToolbarVisibility(s: AppState): (r: AppState)
    ensures r.toolbarShown != s.toolbarShown
    ensures r.tasks == s.tasks && r.info == s.info
  {
    s.(toolbarShown := !s.toolbarShown)
  }

  /** The save button: the whole list goes to the store under TASK_LIST_KEY. */
  function SaveAll(s: AppState, store: Store): (r: Store)
    ensures LoadTaskList(r, []) == s.tasks
    ensures r.flags == store.flags
  {
    SaveTaskList(store, s.tasks)
  }

  /** Hydrate the list: a stored list replaces the held one wholesale. */
  function GetTaskList(s: AppState, store: Store): (r: AppState)
    ensures TASK_LIST_KEY in store.taskLists ==> r.tasks == store.taskLists[TASK_LIST_KEY]
    ensures TASK_LIST_KEY !in store.taskLists ==> r == s
    ensures r.toolbarShown == s.toolbarShown && r.info == s.info
  {
    s.(tasks := LoadTaskList(store, s.tasks))
  }

  /** Hydrate the toolbar flag: a stored flag replaces the held one. */
  function GetToolbarShown(s: AppState, store: Store): (r: AppState)
    ensures TOOLBAR_SHOWN_KEY in store.flags ==> r.toolbarShown == store.flags[TOOLBAR_SHOWN_KEY]
    ensures TOOLBAR_SHOWN_KEY !in store.flags ==> r == s
    ensures r.tasks == s.tasks && r.info == s.info
  {
    s.(toolbarShown := LoadToolbarShown(store, s.toolbarShown))
  }

  /** The state once the start-up effect has read both keys. */
  function Startup(store: Store): (r: AppState)
    ensures r.tasks == if TASK_LIST_KEY in store.taskLists then store.taskLists[TASK_LIST_KEY] else []
    ensures r.toolbarShown == if TOOLBAR_SHOWN_KEY in store.flags then store.flags[TOOLBAR_SHOWN_KEY] else true
    ensures r.info == Blank
  {
    GetToolbarShown(GetTaskList(Initial, store), store)
  }
}

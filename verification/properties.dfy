/** Properties that relate several actions of the state engine: the
    identity and name invariants each action keeps (or breaks), round trips
    through the store, and a worked scenario. */
module Properties {
  import opened Options
  import opened Validation
  import opened TaskList
  import opened Persistence
  import opened App

  /** Every task name is one the add buttons would accept. */
  predicate AllNamesValid(tasks: seq<Task>) {
    forall k | 0 <= k < |tasks| :: ValidName(tasks[k].name)
  }

  /** Every identity in the list is older than `now`: a clock that moves
      forward gives a fresh identity. */
  predicate AllOlderThan(tasks: seq<Task>, now: int) {
    forall k | 0 <= k < |tasks| :: tasks[k].createdAt < now
  }

  // ---- Identity uniqueness ----

  /** Inserting at the front with a fresh timestamp keeps identities unique. */
  lemma AddTopPreservesUnique(s: AppState, input: Option<string>, now: int)
    requires UniqueIds(s.tasks) && !HasId(s.tasks, now)
    ensures UniqueIds(AddTop(s, input, now).tasks)
  {
  }

  /** Inserting at the back with a fresh timestamp keeps identities unique. */
  lemma AddBottomPreservesUnique(s: AppState, input: Option<string>, now: int)
    requires UniqueIds(s.tasks) && !HasId(s.tasks, now)
    ensures UniqueIds(AddBottom(s, input, now).tasks)
  {
  }

  /** A strictly increasing clock keeps identities unique: when every
      identity is older than the reading `now` used for an add, the list
      after either add button still has unique identities, all older than
      any later reading. */
  lemma IncreasingClockKeepsIdsUnique(s: AppState, input: Option<string>, now: int, later: int)
    requires UniqueIds(s.tasks) && AllOlderThan(s.tasks, now) && now < later
    ensures UniqueIds(AddTop(s, input, now).tasks) && AllOlderThan(AddTop(s, input, now).tasks, later)
    ensures UniqueIds(AddBottom(s, input, now).tasks) && AllOlderThan(AddBottom(s, input, now).tasks, later)
  {
  }

  /** Removal, renaming and swapping keep identities unique. */
  lemma MutationsPreserveUnique(s: AppState, id: int, input: Option<string>, confirmed: bool, d: nat, t: nat)
    requires UniqueIds(s.tasks)
    requires d == t || (d < |s.tasks| && t < |s.tasks|)
    ensures UniqueIds(RemoveTask(s, id).tasks)
    ensures UniqueIds(EditEntry(s, input, id, confirmed).state.tasks)
    ensures UniqueIds(SwapListItems(s, d, t, confirmed).state.tasks)
  {
    WithoutPreservesUnique(s.tasks, id);
    if input.Some? {
      RenamedPreservesUnique(s.tasks, id, input.value);
    }
    if d != t {
      SwappedPreservesUnique(s.tasks, d, t);
    }
  }

  // ---- Name validity ----

  /** The add buttons only ever insert accepted names. */
  lemma AddsPreserveValidNames(s: AppState, input: Option<string>, now: int)
    requires AllNamesValid(s.tasks)
    ensures AllNamesValid(AddTop(s, input, now).tasks)
    ensures AllNamesValid(AddBottom(s, input, now).tasks)
  {
  }

  /** Every task a removal keeps was already in the list. */
  lemma WithoutKeepsValidNames(tasks: seq<Task>, id: int)
    requires AllNamesValid(tasks)
    ensures AllNamesValid(Without(tasks, id))
  {
  }

  /** Removal and swapping only keep or move existing tasks. */
  lemma RemoveAndSwapPreserveValidNames(s: AppState, id: int, d: nat, t: nat, confirmed: bool)
    requires AllNamesValid(s.tasks)
    requires d == t || (d < |s.tasks| && t < |s.tasks|)
    ensures AllNamesValid(RemoveTask(s, id).tasks)
    ensures AllNamesValid(SwapListItems(s, d, t, confirmed).state.tasks)
  {
    WithoutKeepsValidNames(s.tasks, id);
  }

  /** Renaming does not run the add buttons' gate: a confirmed edit can store
      a blank name, or one longer than MAX_TASK_NAME_LENGTH. */
  lemma EditBypassesNameGate()
    ensures var s := AppState([Task("a", 1)], true, Blank);
            && AllNamesValid(s.tasks)
            && EditEntry(s, Some(" "), 1, true).state.tasks == [Task(" ", 1)]
            && !AllNamesValid([Task(" ", 1)])
            && EditEntry(s, Some(seq(61, _ => 'x')), 1, true).state.tasks == [Task(seq(61, _ => 'x'), 1)]
            && !AllNamesValid([Task(seq(61, _ => 'x'), 1)])
  {
    assert "a"[0] == 'a';
    assert [Task(" ", 1)][0].name == " ";
    assert SpaceOnly(" ");
  }

  // ---- Store round trips and the toolbar flag ----

  /** Saving and restarting restores exactly the saved list. */
  lemma SaveThenStartup(s: AppState, store: Store)
    ensures Startup(SaveAll(s, store)).tasks == s.tasks
    ensures Startup(SaveAll(s, store)).toolbarShown == Startup(store).toolbarShown
  {
  }

  /** A store without the list key starts the application empty; one without
      the toolbar key starts it with the toolbar shown. */
  lemma StartupFromEmptyStore()
    ensures Startup(Store(map[], map[])) == Initial
  {
  }

  /** Toggling twice is the identity. */
  lemma ToggleTwice(s: AppState)
    ensures ToggleToolbarVisibility(ToggleToolbarVisibility(s)) == s
  {
  }

  // ---- Insertion and lookup together ----

  /** A valid name added at the front and then at the back, at two distinct
      instants, ends up first and last with distinct identities. */
  lemma TopThenBottom(s: AppState, name: string, t1: int, t2: int)
    requires ValidName(name) && t1 != t2
    ensures var r := AddBottom(AddTop(s, Some(name), t1), Some(name), t2).tasks;
            && |r| == |s.tasks| + 2
            && r[0].name == name && r[|r| - 1].name == name
            && r[0].createdAt != r[|r| - 1].createdAt
  {
  }

  /** Copy after edit: the copy button of a renamed task yields the new name. */
  method EditThenCopy(s: AppState, newName: string, id: int) returns (box: Option<string>)
    requires HasId(s.tasks, id) && newName != ""
    ensures box == Some(newName)
  {
    var g := EditEntry(s, Some(newName), id, true);
    LastNameOfRenamed(s.tasks, id, newName);
    box := CopyEntryName(g.state.tasks, id, Some(""));
  }

  /** The worked scenario: add "A" then "B" at the front, swap the two,
      then remove "A". */
  lemma Scenario()
    ensures var s1 := AddTop(Initial, Some("A"), 1);
            var s2 := AddTop(s1, Some("B"), 2);
            var s3 := SwapListItems(s2, 0, 1, true).state;
            var s4 := RemoveTask(s3, 1);
            && s2.tasks == [Task("B", 2), Task("A", 1)]
            && s3.tasks == [Task("A", 1), Task("B", 2)]
            && s4.tasks == [Task("B", 2)]
  {
    assert "A"[0] == 'A';
    assert "B"[0] == 'B';
    var s2 := AddTop(AddTop(Initial, Some("A"), 1), Some("B"), 2);
    assert s2.tasks == [Task("B", 2), Task("A", 1)];
    var s3 := SwapListItems(s2, 0, 1, true).state;
    assert s3.tasks == [Task("A", 1), Task("B", 2)];
    WithoutUniqueDeletes(s3.tasks, 0, 1);
  }
}

/** The ordered task list and the pure sequence operations behind the
    remove, rename, copy-name and drag-swap handlers. Order is the user's:
    nothing here sorts. */
module TaskList {
  import opened Options

  /** A task: the name shown to the user and the millisecond timestamp of its
      creation, which is also its identity. */
  datatype Task = Task(name: string, createdAt: int)

  /** Some task in the list carries identity `id`. */
  predicate HasId(tasks: seq<Task>, id: int) {
    exists i | 0 <= i < |tasks| :: tasks[i].createdAt == id
  }

  /** No two positions share an identity. */
  predicate UniqueIds(tasks: seq<Task>) {
    forall i, j | 0 <= i < j < |tasks| :: tasks[i].createdAt != tasks[j].createdAt
  }

  /** The list with every task of identity `id` filtered out, order kept. */
  function Without(tasks: seq<Task>, id: int): (r: seq<Task>)
    ensures |r| <= |tasks|
    ensures !HasId(r, id)
  {
    if tasks == [] then []
    else (if tasks[0].createdAt == id then [] else [tasks[0]]) + Without(tasks[1..], id)
  }

  /** Every task of identity `id` renamed to `newName`; positions, identities
      and all other tasks untouched. */
  function Renamed(tasks: seq<Task>, id: int, newName: string): (r: seq<Task>)
    ensures |r| == |tasks|
    ensures forall k | 0 <= k < |tasks| ::
              && r[k].createdAt == tasks[k].createdAt
              && r[k].name == (if tasks[k].createdAt == id then newName else tasks[k].name)
  {
    if tasks == [] then []
    else
      var head := if tasks[0].createdAt == id then tasks[0].(name := newName) else tasks[0];
      [head] + Renamed(tasks[1..], id, newName)
  }

  /** Position `k` holds identity `id` and no later position does. */
  predicate IsLastMatch(tasks: seq<Task>, k: int, id: int) {
    && 0 <= k < |tasks|
    && tasks[k].createdAt == id
    && forall j | k < j < |tasks| :: tasks[j].createdAt != id
  }

  /** The name of the LAST task of identity `id` (a later match overwrites an
      earlier one), or None when there is no such task. */
  function LastNameOf(tasks: seq<Task>, id: int): (r: Option<string>)
    ensures r.Some? <==> HasId(tasks, id)
    ensures r.Some? ==> exists k :: IsLastMatch(tasks, k, id) && tasks[k].name == r.value
  {
    if tasks == [] then None
    else
      var n := |tasks| - 1;
      if tasks[n].createdAt == id then
        assert IsLastMatch(tasks, n, id);
        Some(tasks[n].name)
      else
        var prefix := tasks[..n];
        var r := LastNameOf(prefix, id);
        assert HasId(tasks, id) ==> HasId(prefix, id) by {
          if HasId(tasks, id) {
            var i :| 0 <= i < |tasks| && tasks[i].createdAt == id;
            assert prefix[i] == tasks[i];
          }
        }
        assert r.Some? ==> exists k :: IsLastMatch(tasks, k, id) && tasks[k].name == r.value by {
          if r.Some? {
            var k :| IsLastMatch(prefix, k, id) && prefix[k].name == r.value;
            assert prefix[k] == tasks[k];
            assert forall j | k < j < n :: prefix[j] == tasks[j];
            assert IsLastMatch(tasks, k, id);
          }
        }
        assert r.Some? ==> HasId(tasks, id) by {
          if r.Some? {
            var k :| IsLastMatch(tasks, k, id) && tasks[k].name == r.value;
          }
        }
        r
  }

  /** The tasks at positions `d` and `t` exchanged. */
  function Swapped(tasks: seq<Task>, d: nat, t: nat): (r: seq<Task>)
    requires d < |tasks| && t < |tasks|
    ensures |r| == |tasks|
    ensures r[d] == tasks[t] && r[t] == tasks[d]
    ensures forall k | 0 <= k < |tasks| && k != d && k != t :: r[k] == tasks[k]
    ensures multiset(r) == multiset(tasks)
  {
    tasks[d := tasks[t]][t := tasks[d]]
  }

  // ---- Removal ----

  /** One unfolding step of the filter, on a list written as head and tail. */
  lemma WithoutCons(x: Task, rest: seq<Task>, id: int)
    ensures Without([x] + rest, id) == (if x.createdAt == id then [] else [x]) + Without(rest, id)
  {
  }

  /** Removing an identity nobody carries changes nothing. */
  lemma {:induction false} WithoutMissing(tasks: seq<Task>, id: int)
    requires !HasId(tasks, id)
    ensures Without(tasks, id) == tasks
  {
    if tasks != [] {
      assert tasks[0].createdAt != id;
      assert !HasId(tasks[1..], id) by {
        assert forall i | 0 <= i < |tasks[1..]| :: tasks[1..][i] == tasks[i + 1];
      }
      WithoutMissing(tasks[1..], id);
      assert tasks == [tasks[0]] + tasks[1..];
    }
  }

  /** Filtering distributes over concatenation: removal keeps relative order. */
  lemma {:induction false} WithoutAppend(a: seq<Task>, b: seq<Task>, id: int)
    ensures Without(a + b, id) == Without(a, id) + Without(b, id)
  {
    if a == [] {
      assert a + b == b;
    } else {
      var x, tail := a[0], a[1..];
      var head := if x.createdAt == id then [] else [x];
      assert a == [x] + tail;
      calc {
        Without(a + b, id);
      == { assert a + b == [x] + (tail + b); }
        Without([x] + (tail + b), id);
      == { WithoutCons(x, tail + b, id); }
        head + Without(tail + b, id);
      == { WithoutAppend(tail, b, id); }
        head + (Without(tail, id) + Without(b, id));
      ==
        (head + Without(tail, id)) + Without(b, id);
      == { WithoutCons(x, tail, id); }
        Without(a, id) + Without(b, id);
      }
    }
  }

  /** Removal drops every copy of a task of identity `id` and keeps every
      other task as often as it occurred. */
  lemma {:induction false} WithoutCounts(tasks: seq<Task>, id: int, t: Task)
    ensures multiset(Without(tasks, id))[t] == if t.createdAt == id then 0 else multiset(tasks)[t]
  {
    if tasks != [] {
      var head := if tasks[0].createdAt == id then [] else [tasks[0]];
      assert tasks == [tasks[0]] + tasks[1..];
      assert Without(tasks, id) == head + Without(tasks[1..], id);
      WithoutCounts(tasks[1..], id, t);
    }
  }

  /** Removing the identity of a task flanked by lists without it deletes
      just that task. */
  lemma WithoutSplice(pre: seq<Task>, x: Task, post: seq<Task>, id: int)
    requires !HasId(pre, id) && !HasId(post, id) && x.createdAt == id
    ensures Without(pre + [x] + post, id) == pre + post
  {
    calc {
      Without(pre + [x] + post, id);
    == { WithoutAppend(pre + [x], post, id); }
      Without(pre + [x], id) + Without(post, id);
    == { WithoutAppend(pre, [x], id); }
      Without(pre, id) + Without([x], id) + Without(post, id);
    == { WithoutMissing(pre, id); WithoutMissing(post, id); assert Without([x], id) == []; }
      pre + [] + post;
    == { assert pre + [] == pre; }
      pre + post;
    }
  }

  /** With unique identities, removing the identity found at position `k`
      deletes exactly that position. */
  lemma WithoutUniqueDeletes(tasks: seq<Task>, k: nat, id: int)
    requires UniqueIds(tasks)
    requires k < |tasks| && tasks[k].createdAt == id
    ensures Without(tasks, id) == tasks[..k] + tasks[k + 1..]
  {
    var pre, post := tasks[..k], tasks[k + 1..];
    assert tasks == pre + [tasks[k]] + post;
    assert !HasId(pre, id) by {
      assert forall i | 0 <= i < |pre| :: pre[i] == tasks[i];
    }
    assert !HasId(post, id) by {
      assert forall i | 0 <= i < |post| :: post[i] == tasks[k + 1 + i];
    }
    WithoutSplice(pre, tasks[k], post, id);
  }

  /** A list with unique identities stays so after a removal. */
  lemma WithoutPreservesUnique(tasks: seq<Task>, id: int)
    requires UniqueIds(tasks)
    ensures UniqueIds(Without(tasks, id))
  {
    if !HasId(tasks, id) {
      WithoutMissing(tasks, id);
    } else {
      var k :| 0 <= k < |tasks| && tasks[k].createdAt == id;
      WithoutUniqueDeletes(tasks, k, id);
      var r := tasks[..k] + tasks[k + 1..];
      forall i, j | 0 <= i < j < |r|
        ensures r[i].createdAt != r[j].createdAt
      {
        var i' := if i < k then i else i + 1;
        var j' := if j < k then j else j + 1;
        assert r[i] == tasks[i'] && r[j] == tasks[j'];
      }
    }
  }

  // ---- Renaming ----

  /** Renaming an identity nobody carries changes nothing. */
  lemma RenamedMissing(tasks: seq<Task>, id: int, newName: string)
    requires !HasId(tasks, id)
    ensures Renamed(tasks, id, newName) == tasks
  {
  }

  /** Renaming twice is renaming once, to the second name. */
  lemma RenamedTwice(tasks: seq<Task>, id: int, first: string, second: string)
    ensures Renamed(Renamed(tasks, id, first), id, second) == Renamed(tasks, id, second)
  {
  }

  /** Renaming keeps the identity sequence, hence keeps identities unique. */
  lemma RenamedPreservesUnique(tasks: seq<Task>, id: int, newName: string)
    requires UniqueIds(tasks)
    ensures UniqueIds(Renamed(tasks, id, newName))
  {
  }

  // ---- Name lookup ----

  /** With unique identities the lookup finds the one task carrying `id`. */
  lemma LastNameOfUnique(tasks: seq<Task>, k: nat, id: int)
    requires UniqueIds(tasks)
    requires k < |tasks| && tasks[k].createdAt == id
    ensures LastNameOf(tasks, id) == Some(tasks[k].name)
  {
  }

  /** After a rename, looking the identity up yields the new name. */
  lemma LastNameOfRenamed(tasks: seq<Task>, id: int, newName: string)
    requires HasId(tasks, id)
    ensures LastNameOf(Renamed(tasks, id, newName), id) == Some(newName)
  {
  }

  /** After a removal, looking the identity up finds nothing. */
  lemma LastNameOfWithout(tasks: seq<Task>, id: int)
    ensures LastNameOf(Without(tasks, id), id) == None
  {
  }

  // ---- Swapping ----

  /** Swapping the same two positions again restores the list. */
  lemma SwappedInvolution(tasks: seq<Task>, d: nat, t: nat)
    requires d < |tasks| && t < |tasks|
    ensures Swapped(Swapped(tasks, d, t), d, t) == tasks
  {
  }

  /** The order of the two positions does not matter. */
  lemma SwappedSymmetric(tasks: seq<Task>, d: nat, t: nat)
    requires d < |tasks| && t < |tasks|
    ensures Swapped(tasks, d, t) == Swapped(tasks, t, d)
  {
  }

  /** A swap keeps identities unique. */
  lemma SwappedPreservesUnique(tasks: seq<Task>, d: nat, t: nat)
    requires UniqueIds(tasks)
    requires d < |tasks| && t < |tasks|
    ensures UniqueIds(Swapped(tasks, d, t))
  {
  }
}

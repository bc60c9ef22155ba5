/** The day's task list and the two pure sequence transforms the toggle and
    delete handlers build their new list with: a pointwise `map` and a
    `filter`. */
module Tasks {

  /** One to-do item. The id is the millisecond timestamp of its creation;
      nothing makes ids unique, so two items may share one. */
  datatype Task = Task(id: int, text: string, completed: bool)

  function Flipped(t: Task): Task {
    t.(completed := !t.completed)
  }

  /** The toggle handler's pointwise map: every task whose id equals `id` gets
      its `completed` flag flipped, every other task is kept as it is. */
  function Toggled(tasks: seq<Task>, id: int): seq<Task> {
    if tasks == [] then []
    else [if tasks[0].id == id then Flipped(tasks[0]) else tasks[0]] + Toggled(tasks[1..], id)
  }

  /** The delete handler's filter: keeps, in order, the tasks whose id differs
      from `id`. */
  function Without(tasks: seq<Task>, id: int): seq<Task> {
    if tasks == [] then []
    else (if tasks[0].id == id then [] else [tasks[0]]) + Without(tasks[1..], id)
  }

  predicate HasId(tasks: seq<Task>, id: int) {
    exists i :: 0 <= i < |tasks| && tasks[i].id == id
  }

  /** Toggling keeps length, order, ids and texts, and flips `completed` on
      exactly the tasks carrying the id (every one of them). */
  lemma {:induction false} ToggledPointwise(tasks: seq<Task>, id: int)
    ensures |Toggled(tasks, id)| == |tasks|
    ensures forall i :: 0 <= i < |tasks| ==>
              Toggled(tasks, id)[i].id == tasks[i].id
              && Toggled(tasks, id)[i].text == tasks[i].text
              && (Toggled(tasks, id)[i].completed <==> (tasks[i].completed != (tasks[i].id == id)))
  {
    if tasks != [] {
      ToggledPointwise(tasks[1..], id);
      forall i | 1 <= i < |tasks|
        ensures Toggled(tasks, id)[i] == Toggled(tasks[1..], id)[i - 1]
      {
      }
    }
  }

  /** An id no task carries leaves the list as it is. */
  lemma {:induction false} ToggledUnknownId(tasks: seq<Task>, id: int)
    requires !HasId(tasks, id)
    ensures Toggled(tasks, id) == tasks
  {
    if tasks != [] {
      assert !HasId(tasks[1..], id) by {
        forall i | 0 <= i < |tasks[1..]|
          ensures tasks[1..][i].id != id
        {
          assert tasks[1..][i] == tasks[i + 1];
        }
      }
      ToggledUnknownId(tasks[1..], id);
      assert tasks == [tasks[0]] + tasks[1..];
    }
  }

  /** Toggling the same id twice restores the original list. */
  lemma {:induction false} ToggledTwice(tasks: seq<Task>, id: int)
    ensures Toggled(Toggled(tasks, id), id) == tasks
  {
    if tasks != [] {
      var once := Toggled(tasks, id);
      assert once[1..] == Toggled(tasks[1..], id);
      ToggledTwice(tasks[1..], id);
      assert tasks == [tasks[0]] + tasks[1..];
    }
  }

  /** Filtering distributes over concatenation: the kept tasks stay in their
      original relative order. */
  lemma {:induction false} WithoutAppend(a: seq<Task>, b: seq<Task>, id: int)
    ensures Without(a + b, id) == Without(a, id) + Without(b, id)
  {
    if a == [] {
      assert a + b == b;
    } else {
      assert (a + b)[1..] == a[1..] + b;
      WithoutAppend(a[1..], b, id);
    }
  }

  /** Deleting removes every copy of every task with the id and keeps every
      other task with its multiplicity. */
  lemma {:induction false} WithoutCounts(tasks: seq<Task>, id: int)
    ensures forall t :: multiset(Without(tasks, id))[t] == if t.id == id then 0 else multiset(tasks)[t]
  {
    if tasks != [] {
      WithoutCounts(tasks[1..], id);
      assert tasks == [tasks[0]] + tasks[1..];
      assert multiset(tasks) == multiset{tasks[0]} + multiset(tasks[1..]);
    }
  }

  /** An id no task carries leaves the list as it is. */
  lemma {:induction false} WithoutUnknownId(tasks: seq<Task>, id: int)
    requires !HasId(tasks, id)
    ensures Without(tasks, id) == tasks
  {
    if tasks != [] {
      assert !HasId(tasks[1..], id) by {
        forall i | 0 <= i < |tasks[1..]|
          ensures tasks[1..][i].id != id
        {
          assert tasks[1..][i] == tasks[i + 1];
        }
      }
      WithoutUnknownId(tasks[1..], id);
      assert tasks == [tasks[0]] + tasks[1..];
    }
  }

  /** After deleting, no task carries the id; the list shrinks exactly when
      the id was present. */
  lemma {:induction false} WithoutRemovesId(tasks: seq<Task>, id: int)
    ensures !HasId(Without(tasks, id), id)
    ensures |Without(tasks, id)| <= |tasks|
    ensures |Without(tasks, id)| < |tasks| <==> HasId(tasks, id)
  {
    if tasks != [] {
      WithoutRemovesId(tasks[1..], id);
      var r := Without(tasks, id);
      var rest := Without(tasks[1..], id);
      if tasks[0].id == id {
        assert r == rest;
      } else {
        assert r == [tasks[0]] + rest;
        forall i | 1 <= i < |r|
          ensures r[i].id != id
        {
          assert r[i] == rest[i - 1];
        }
        if HasId(tasks, id) {
          var i :| 0 <= i < |tasks| && tasks[i].id == id;
          assert tasks[1..][i - 1].id == id;
        }
        if HasId(tasks[1..], id) {
          var i :| 0 <= i < |tasks[1..]| && tasks[1..][i].id == id;
          assert tasks[i + 1].id == id;
        }
      }
    }
  }
}

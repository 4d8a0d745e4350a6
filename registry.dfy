/** The task registry: the module-level dictionary from user id to the user's
    in-flight task, with the three functions that guard, fill and empty it. */
module Registry {
  import opened Common

  ghost predicate Distinct(s: seq<string>)
  {
    forall i, j :: 0 <= i < j < |s| ==> s[i] != s[j]
  }

  /** Every task is stored under its own user id. The registry itself does not
      enforce this; submission establishes it and removal keeps it. */
  ghost predicate Keyed(tasks: map<string, Task>)
  {
    forall k :: k in tasks ==> tasks[k].userId == k
  }

  /** The elements of `order` that lie in `keys`, in their original order. */
  function Restrict(order: seq<string>, keys: set<string>): (r: seq<string>)
    ensures forall k :: k in r <==> k in order && k in keys
    ensures |r| <= |order|
  {
    if order == [] then []
    else (if order[0] in keys then [order[0]] else []) + Restrict(order[1..], keys)
  }

  lemma {:induction false} RestrictDistinct(order: seq<string>, keys: set<string>)
    requires Distinct(order)
    ensures Distinct(Restrict(order, keys))
  {
    if order != [] {
      RestrictDistinct(order[1..], keys);
      var rest := Restrict(order[1..], keys);
      assert order[0] !in order[1..];
      assert order[0] !in rest;
      var r := Restrict(order, keys);
      forall i, j | 0 <= i < j < |r| ensures r[i] != r[j] {
        if order[0] in keys && i == 0 {
          assert r[j] == rest[j - 1];
        }
      }
    }
  }

  /** Restricting to every element of `order` changes nothing. */
  lemma {:induction false} RestrictAll(order: seq<string>, keys: set<string>)
    requires forall k :: k in order ==> k in keys
    ensures Restrict(order, keys) == order
  {
    if order != [] {
      RestrictAll(order[1..], keys);
      assert [order[0]] + order[1..] == order;
    }
  }

  /** Two successive removals are one removal of the smaller key set. */
  lemma {:induction false} RestrictTwice(order: seq<string>, outer: set<string>, inner: set<string>)
    requires inner <= outer
    ensures Restrict(Restrict(order, outer), inner) == Restrict(order, inner)
  {
    if order != [] {
      RestrictTwice(order[1..], outer, inner);
      var head := if order[0] in outer then [order[0]] else [];
      RestrictAppend(head, Restrict(order[1..], outer), inner);
      if order[0] in outer {
        assert Restrict(head, inner) == (if order[0] in inner then [order[0]] else []) by {
          assert head[1..] == [];
        }
      }
    }
  }

  lemma {:induction false} RestrictAppend(a: seq<string>, b: seq<string>, keys: set<string>)
    ensures Restrict(a + b, keys) == Restrict(a, keys) + Restrict(b, keys)
  {
    if a != [] {
      RestrictAppend(a[1..], b, keys);
      assert (a + b)[1..] == a[1..] + b;
    } else {
      assert a + b == b;
    }
  }

  /** The `items()` view of the registry: each key in insertion order with its task. */
  function ItemsOf(tasks: map<string, Task>, order: seq<string>): seq<(string, Task)>
    requires forall k :: k in order ==> k in tasks
  {
    seq(|order|, i requires 0 <= i < |order| => (order[i], tasks[order[i]]))
  }

  lemma ItemsOfCovers(tasks: map<string, Task>, order: seq<string>)
    requires forall k :: k in order ==> k in tasks
    ensures forall k :: k in order ==> exists i :: 0 <= i < |order| && ItemsOf(tasks, order)[i].0 == k
  {
    forall k | k in order
      ensures exists i :: 0 <= i < |order| && ItemsOf(tasks, order)[i].0 == k
    {
      var i :| 0 <= i < |order| && order[i] == k;
      assert ItemsOf(tasks, order)[i].0 == k;
    }
  }

  /** The registry `gen_video_tasks`. `order` is the insertion order of the keys,
      which is the order in which a Python dict yields them. */
  class TaskRegistry {
    var tasks: map<string, Task>
    var order: seq<string>

    ghost predicate Valid()
      reads this
    {
      && Distinct(order)
      && (forall k :: k in order <==> k in tasks)
    }

    constructor ()
      ensures Valid() && tasks == map[] && order == []
    {
      tasks := map[];
      order := [];
    }

    /** A point-in-time copy of `items()`. */
    function Items(): (r: seq<(string, Task)>)
      reads this
      requires Valid()
      ensures forall i :: 0 <= i < |r| ==> r[i].0 in tasks && r[i].1 == tasks[r[i].0]
      ensures forall k :: k in tasks ==> exists i :: 0 <= i < |r| && r[i].0 == k
      ensures forall i, j :: 0 <= i < j < |r| ==> r[i].0 != r[j].0
    {
      ItemsOfCovers(tasks, order);
      ItemsOf(tasks, order)
    }

    /** check_task: a user with a task in flight may not submit another. */
    method CheckTask(uid: Option<string>) returns (r: Outcome)
      ensures r.Fail? <==> uid.Some? && uid.value in tasks
      ensures r.Fail? ==> r.error == TaskPending(uid.value)
    {
      if uid.Some? && uid.value in tasks {
        return Fail(TaskPending(uid.value));
      }
      return Pass;
    }

    /** add_task: refuses a missing user id or task, otherwise stores the task
        under `uid`, replacing an earlier one in place. */
    method AddTask(uid: Option<string>, task: Option<Task>) returns (r: Outcome)
      requires Valid()
      modifies this
      ensures Valid()
      ensures uid.None? ==> r == Fail(MissingUserId)
      ensures uid.Some? && task.None? ==> r == Fail(MissingTask(uid.value))
      ensures r.Pass? <==> uid.Some? && task.Some?
      ensures r.Pass? ==> tasks == old(tasks)[uid.value := task.value]
      ensures r.Pass? ==> order == if uid.value in old(tasks) then old(order) else old(order) + [uid.value]
      ensures r.Fail? ==> tasks == old(tasks) && order == old(order)
    {
      if uid.None? {
        return Fail(MissingUserId);
      }
      if task.None? {
        return Fail(MissingTask(uid.value));
      }
      if uid.value !in tasks {
        order := order + [uid.value];
      }
      tasks := tasks[uid.value := task.value];
      r := Pass;
    }

    /** remove_task: `pop(uid, None)`, a no-op when `uid` is absent. */
    method RemoveTask(uid: string)
      requires Valid()
      modifies this
      ensures Valid()
      ensures tasks == old(tasks) - {uid}
      ensures order == Restrict(old(order), tasks.Keys)
      ensures uid !in old(tasks) ==> order == old(order)
    {
      tasks := tasks - {uid};
      RestrictDistinct(order, tasks.Keys);
      if uid !in old(tasks) {
        RestrictAll(order, tasks.Keys);
      }
      order := Restrict(order, tasks.Keys);
    }
  }
}

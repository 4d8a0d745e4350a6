/** The sweep as process_gen_video_tasks writes it: the `for` loop iterates
    the registry dictionary itself, not a copy. A CPython dict iterator checks,
    each time it is asked for the next item, that the dictionary still has the
    size it had when iteration began, and raises RuntimeError otherwise. A
    removal inside the loop body therefore ends the sweep at the next step. */
module LiveIteration {
  import opened Common
  import opened Registry
  import opened Replies
  import opened Storage
  import opened Pipeline

  /** The sweep over the live dictionary; `size` is its size when the `for`
      loop started. The size test comes first at every step, including the
      one that would find the iteration exhausted. */
  function LiveSweep(w: World, root: Path, items: seq<(string, Task)>, env: Env, size: nat): (r: (World, SweepEnd))
    ensures r.1 == Finished ==> |r.0.tasks| == size
    ensures r.0.tasks.Keys <= w.tasks.Keys
    decreases |items|
  {
    if |w.tasks| != size then (w, Aborted(DictChangedSize))
    else if items == [] then (w, Finished)
    else
      var s := Step(w, root, items[0], env);
      if s.1.Some? then (s.0, Aborted(s.1.value)) else LiveSweep(s.0, root, items[1..], env, size)
  }

  /** A live sweep removes at most one task, and when it removes one it ends
      in the RuntimeError, which the outer handler logs before backing off. */
  lemma {:induction false} LiveSweepRemovesAtMostOne(w: World, root: Path, items: seq<(string, Task)>, env: Env)
    ensures var s := LiveSweep(w, root, items, env, |w.tasks|);
            || s.0.tasks == w.tasks
            || (s.1 == Aborted(DictChangedSize) && exists k :: k in w.tasks && s.0.tasks == w.tasks - {k})
    decreases |items|
  {
    if items != [] {
      var st := Step(w, root, items[0], env);
      var k := items[0].1.userId;
      assert st.0.tasks == w.tasks || st.0.tasks == w.tasks - {k};
      if st.1.None? {
        if st.0.tasks == w.tasks {
          LiveSweepRemovesAtMostOne(st.0, root, items[1..], env);
        } else {
          assert k in w.tasks;
          assert |st.0.tasks| != |w.tasks| by {
            assert st.0.tasks.Keys == w.tasks.Keys - {k};
          }
        }
      }
    }
  }

  const Expiring := Task("a", "ta", 0, "T", [])
  const AlsoExpiring := Task("b", "tb", 0, "T", [])

  /** Two tasks submitted at instant 0 and polled at 400 seconds have both
      timed out. The live sweep removes the first, then raises and leaves the
      second in the registry; the sweep over a snapshot removes both and
      finishes. */
  lemma LiveSweepKeepsExpiredTask(disk: DiskState, root: Path, env: Env)
    requires forall u :: env.clock(u) == 400000
    ensures var tasks := map["a" := Expiring, "b" := AlsoExpiring];
            var items := [("a", Expiring), ("b", AlsoExpiring)];
            var live := LiveSweep(World(tasks, disk, []), root, items, env, |tasks|);
            var snapshot := SweepSpec(World(tasks, disk, []), root, items, env);
            && live.1 == Aborted(DictChangedSize) && live.0.tasks == map["b" := AlsoExpiring]
            && snapshot.1 == Finished && snapshot.0.tasks == map[]
  {
    var tasks := map["a" := Expiring, "b" := AlsoExpiring];
    var items := [("a", Expiring), ("b", AlsoExpiring)];
    TimedOutExactly(400000, 0);
    assert FateOf(items[0], env) == Expired && FateOf(items[1], env) == Expired;
    var w1 := World(tasks - {"a"}, disk, []);
    assert w1.tasks == map["b" := AlsoExpiring];
    assert |w1.tasks| == 1 && |tasks| == 2;
    assert items[1..] == [("b", AlsoExpiring)] && items[1..][1..] == [];
    var w2 := World(map[], disk, []);
    assert w1.tasks - {"b"} == map[];
    assert Step(World(tasks, disk, []), root, items[0], env) == (w1, None);
    assert Step(w1, root, items[1], env) == (w2, None);
    assert SweepSpec(World(tasks, disk, []), root, items, env) == SweepSpec(w1, root, items[1..], env);
    assert SweepSpec(w1, root, items[1..], env) == SweepSpec(w2, root, [], env);
  }
}

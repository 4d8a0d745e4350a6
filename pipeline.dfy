/** The pipeline of my/gen/video.py: submitting a generation request, polling
    one task, and one sweep of the background loop over all registered tasks,
    which downloads finished videos, hands them to the publisher and removes
    the task. The clock, the service's replies, the media fetches and the
    publisher are inputs. */
module Pipeline {
  import opened Common
  import opened Registry
  import opened Replies
  import opened Storage

  /** submit_create_videos_task: `startTime` is the clock when the request is
      sent and `reply` the service's answer. */
  method SubmitCreateVideosTask(reg: TaskRegistry, uid: Option<string>, title: string, tags: seq<string>,
                                startTime: Millis, reply: SubmitReply) returns (r: Result<Task>)
    requires reg.Valid()
    modifies reg
    ensures reg.Valid()
    ensures uid.Some? && uid.value in old(reg.tasks) ==> r == Err(TaskPending(uid.value))
    ensures !(uid.Some? && uid.value in old(reg.tasks)) && AcceptSubmit(reply).Err? ==> r == Err(AcceptSubmit(reply).error)
    ensures uid.None? && AcceptSubmit(reply).Ok? ==> r == Err(MissingUserId)
    ensures r.Ok? <==> uid.Some? && uid.value !in old(reg.tasks) && AcceptSubmit(reply).Ok?
    ensures r.Ok? ==> && r.value == Task(uid.value, AcceptSubmit(reply).value, startTime, title, tags)
                      && reg.tasks == old(reg.tasks)[uid.value := r.value]
                      && reg.order == old(reg.order) + [uid.value]
    ensures r.Err? ==> reg.tasks == old(reg.tasks) && reg.order == old(reg.order)
    ensures Keyed(old(reg.tasks)) ==> Keyed(reg.tasks)
  {
    var checked := reg.CheckTask(uid);
    if checked.Fail? {
      return Err(checked.error);
    }
    var accepted := AcceptSubmit(reply);
    if accepted.Err? {
      return Err(accepted.error);
    }
    // With uid None the record is never stored: add_task raises first.
    var task := if uid.Some? then Some(Task(uid.value, accepted.value, startTime, title, tags)) else None;
    var added := reg.AddTask(uid, task);
    if added.Fail? {
      return Err(added.error);
    }
    r := Ok(task.value);
  }

  /** gen_videos_url: at instant `now`, either time the task out and remove it,
      or interpret `reply`, the answer to the status query. */
  method GenVideosUrl(reg: TaskRegistry, now: Millis, task: Task, reply: QueryReply)
    returns (r: Result<Option<seq<string>>>)
    requires reg.Valid()
    modifies reg
    ensures reg.Valid()
    ensures TimedOut(now, task.submitTime) ==> && r == Ok(None)
                                                && reg.tasks == old(reg.tasks) - {task.userId}
                                                && reg.order == Restrict(old(reg.order), reg.tasks.Keys)
    ensures !TimedOut(now, task.submitTime) ==> && r == InterpretQuery(reply)
                                                 && reg.tasks == old(reg.tasks) && reg.order == old(reg.order)
  {
    if ElapsedSeconds(now, task.submitTime) > 300 {
      reg.RemoveTask(task.userId);
      return Ok(None);
    }
    r := InterpretQuery(reply);
  }

  // ---- One sweep of process_gen_video_tasks ----

  /** What the outside world answers during a sweep: the clock when each user's
      task is polled, the status reply for each remote task id, the formatted
      clock when each user's videos are downloaded, and which media URLs can be
      fetched. */
  datatype Env = Env(
    clock: string -> Millis,
    query: string -> QueryReply,
    stamp: string -> string,
    fetchOk: string -> bool)

  /** The state a sweep changes: the registry's tasks, the disk, and the
      publisher calls made, each with the user and the directory published. */
  datatype World = World(tasks: map<string, Task>, disk: DiskState, published: seq<(string, Path)>)

  /** How a sweep ends: having visited every task, or with the exception that
      escaped the `for` loop (the outer handler then logs it and backs off). */
  datatype SweepEnd = Finished | Aborted(error: Error)

  function FateOf(item: (string, Task), env: Env): Fate
  {
    PollFate(env.clock(item.0), item.1, env.query(item.1.taskId))
  }

  /** A finished task: download its videos; on success publish the run
      directory; in every case remove the task (the `finally` clause). */
  function Deliver(w: World, root: Path, uid: string, task: Task, urls: seq<string>, env: Env): (r: World)
    ensures r.tasks == w.tasks - {task.userId}
    ensures |w.published| <= |r.published| <= |w.published| + 1 && r.published[..|w.published|] == w.published
  {
    var dl := Download(w.disk, root, uid, env.stamp(uid), urls, task.title, task.tags, env.fetchOk);
    World(w.tasks - {task.userId}, dl.0, if dl.1.Ok? then w.published + [(uid, dl.1.value)] else w.published)
  }

  /** The loop body for one `(uid, task)` item; Some(error) when an exception
      escapes it. */
  function Step(w: World, root: Path, item: (string, Task), env: Env): (r: (World, Option<Error>))
    ensures r.1.Some? ==> r.0 == w
    ensures r.0.tasks == w.tasks || r.0.tasks == w.tasks - {item.1.userId}
    ensures |w.published| <= |r.0.published| && r.0.published[..|w.published|] == w.published
  {
    match FateOf(item, env)
    case Expired => (w.(tasks := w.tasks - {item.1.userId}), None)
    case QueryFailed(e) => (w, Some(e))
    case InProgress => (w, None)
    case Ready(urls) => (Deliver(w, root, item.0, item.1, urls, env), None)
  }

  /** A sweep over a snapshot of the registry's items, taken when it starts. */
  function SweepSpec(w: World, root: Path, items: seq<(string, Task)>, env: Env): (r: (World, SweepEnd))
    ensures r.0.tasks.Keys <= w.tasks.Keys
    ensures |w.published| <= |r.0.published| && r.0.published[..|w.published|] == w.published
    decreases |items|
  {
    if items == [] then (w, Finished)
    else
      var s := Step(w, root, items[0], env);
      if s.1.Some? then (s.0, Aborted(s.1.value)) else SweepSpec(s.0, root, items[1..], env)
  }

  lemma SweepSpecAt(w: World, root: Path, items: seq<(string, Task)>, env: Env, i: nat)
    requires i < |items|
    ensures var s := Step(w, root, items[i], env);
            SweepSpec(w, root, items[i..], env)
            == if s.1.Some? then (s.0, Aborted(s.1.value)) else SweepSpec(s.0, root, items[i + 1..], env)
  {
    assert items[i..][0] == items[i] && items[i..][1..] == items[i + 1..];
  }

  /** The body of the sweep's `for` loop for one `(uid, task)` item. */
  method ProcessItem(reg: TaskRegistry, disk: Disk, root: Path, uid: string, task: Task, env: Env,
                     published: seq<(string, Path)>) returns (published': seq<(string, Path)>, escaped: Option<Error>)
    requires reg.Valid()
    modifies reg, disk
    ensures reg.Valid()
    ensures (World(reg.tasks, disk.State(), published'), escaped)
            == Step(World(old(reg.tasks), old(disk.State()), published), root, (uid, task), env)
    ensures reg.order == Restrict(old(reg.order), reg.tasks.Keys)
  {
    published' := published;
    RestrictAll(reg.order, reg.tasks.Keys);
    var urls := GenVideosUrl(reg, env.clock(uid), task, env.query(task.taskId));
    if urls.Err? {
      return published', Some(urls.error);
    }
    if urls.value.Some? && urls.value.value != [] {
      var dl := DownloadVideos(disk, root, uid, env.stamp(uid), urls.value.value, task.title, task.tags, env.fetchOk);
      if dl.Ok? {
        published' := published' + [(uid, dl.value)];    // upload_douyin(uid, videos_dir)
      }
      reg.RemoveTask(task.userId);    // the `finally` clause
    }
    escaped := None;
  }

  /** One sweep of process_gen_video_tasks, over a snapshot of the registry. */
  method Sweep(reg: TaskRegistry, disk: Disk, root: Path, env: Env) returns (end: SweepEnd, published: seq<(string, Path)>)
    requires reg.Valid()
    modifies reg, disk
    ensures reg.Valid()
    ensures var s := SweepSpec(World(old(reg.tasks), old(disk.State()), []), root, old(reg.Items()), env);
            && reg.tasks == s.0.tasks && disk.State() == s.0.disk && published == s.0.published
            && end == s.1
    ensures reg.order == Restrict(old(reg.order), reg.tasks.Keys)
  {
    var items := reg.Items();
    ghost var goal := SweepSpec(World(reg.tasks, disk.State(), []), root, items, env);
    published := [];
    RestrictAll(reg.order, reg.tasks.Keys);
    var i := 0;
    while i < |items|
      invariant 0 <= i <= |items|
      invariant reg.Valid()
      invariant SweepSpec(World(reg.tasks, disk.State(), published), root, items[i..], env) == goal
      invariant reg.order == Restrict(old(reg.order), reg.tasks.Keys)
    {
      var (uid, task) := items[i];
      SweepSpecAt(World(reg.tasks, disk.State(), published), root, items, env, i);
      ghost var before := reg.tasks.Keys;
      var escaped;
      published, escaped := ProcessItem(reg, disk, root, uid, task, env, published);
      RestrictTwice(old(reg.order), before, reg.tasks.Keys);
      if escaped.Some? {
        return Aborted(escaped.value), published;
      }
      i := i + 1;
    }
    assert items[i..] == [];
    end := Finished;
  }

  // ---- What one sweep decides ----

  /** How many items a sweep gets through before a query raises: all of them,
      or the index of the first whose status query fails. */
  function Processed(items: seq<(string, Task)>, env: Env): (n: nat)
    ensures n <= |items|
    ensures n < |items| ==> FateOf(items[n], env).QueryFailed?
    ensures forall j :: 0 <= j < n ==> !FateOf(items[j], env).QueryFailed?
  {
    if items == [] then 0
    else if FateOf(items[0], env).QueryFailed? then 0
    else 1 + Processed(items[1..], env)
  }

  /** The users whose tasks the polls of `items` end. */
  function Removed(items: seq<(string, Task)>, env: Env): set<string>
  {
    if items == [] then {}
    else (if Ends(FateOf(items[0], env)) then {items[0].1.userId} else {}) + Removed(items[1..], env)
  }

  lemma {:induction false} RemovedMembers(items: seq<(string, Task)>, env: Env, k: string)
    ensures k in Removed(items, env)
            <==> exists i :: 0 <= i < |items| && items[i].1.userId == k && Ends(FateOf(items[i], env))
  {
    if items != [] {
      RemovedMembers(items[1..], env, k);
      if exists i :: 0 <= i < |items| && items[i].1.userId == k && Ends(FateOf(items[i], env)) {
        var i :| 0 <= i < |items| && items[i].1.userId == k && Ends(FateOf(items[i], env));
        if i > 0 {
          assert items[1..][i - 1] == items[i];
        }
      }
      if exists i :: 0 <= i < |items[1..]| && items[1..][i].1.userId == k && Ends(FateOf(items[1..][i], env)) {
        var i :| 0 <= i < |items[1..]| && items[1..][i].1.userId == k && Ends(FateOf(items[1..][i], env));
        assert items[i + 1] == items[1..][i];
      }
    }
  }

  /** One step removes the task its poll ends, and raises exactly when its
      query fails. */
  lemma StepEffect(w: World, root: Path, item: (string, Task), env: Env)
    ensures var s := Step(w, root, item, env);
            && s.0.tasks == w.tasks - (if Ends(FateOf(item, env)) then {item.1.userId} else {})
            && (s.1.Some? <==> FateOf(item, env).QueryFailed?)
            && (s.1.Some? ==> s.1.value == FateOf(item, env).error)
  {
  }

  /** The users removed by the items a sweep gets through: the first item's,
      then those of the rest. */
  lemma RemovedPrefix(items: seq<(string, Task)>, env: Env)
    requires Processed(items, env) > 0
    ensures var p := Processed(items, env);
            Removed(items[..p], env)
            == (if Ends(FateOf(items[0], env)) then {items[0].1.userId} else {})
               + Removed(items[1..][..Processed(items[1..], env)], env)
  {
    var p := Processed(items, env);
    assert items[..p][0] == items[0] && items[..p][1..] == items[1..][..p - 1];
  }

  lemma {:induction false} SweepRemoves(w: World, root: Path, items: seq<(string, Task)>, env: Env)
    ensures SweepSpec(w, root, items, env).0.tasks == w.tasks - Removed(items[..Processed(items, env)], env)
    decreases |items|
  {
    if items == [] {
      assert items[..0] == [];
    } else {
      var st := Step(w, root, items[0], env);
      StepEffect(w, root, items[0], env);
      if st.1.None? {
        assert SweepSpec(w, root, items, env) == SweepSpec(st.0, root, items[1..], env);
        SweepRemoves(st.0, root, items[1..], env);
        RemovedPrefix(items, env);
        var head := if Ends(FateOf(items[0], env)) then {items[0].1.userId} else {};
        var rest := Removed(items[1..][..Processed(items[1..], env)], env);
        assert (w.tasks - head) - rest == w.tasks - (head + rest);
      } else {
        assert items[..Processed(items, env)] == [];
      }
    }
  }

  lemma {:induction false} SweepEnds(w: World, root: Path, items: seq<(string, Task)>, env: Env)
    ensures var s := SweepSpec(w, root, items, env);
            var p := Processed(items, env);
            && (s.1 == Finished <==> p == |items|)
            && (p < |items| ==> s.1 == Aborted(FateOf(items[p], env).error))
    decreases |items|
  {
    if items != [] {
      var st := Step(w, root, items[0], env);
      StepEffect(w, root, items[0], env);
      if st.1.None? {
        SweepEnds(st.0, root, items[1..], env);
      }
    }
  }

  /** A sweep removes exactly the tasks that the polls before the first failed
      query end, and it finishes exactly when no query fails; otherwise it
      ends with that query's error. */
  lemma SweepOutcome(w: World, root: Path, items: seq<(string, Task)>, env: Env)
    ensures var s := SweepSpec(w, root, items, env);
            var p := Processed(items, env);
            && s.0.tasks == w.tasks - Removed(items[..p], env)
            && (s.1 == Finished <==> p == |items|)
            && (p < |items| ==> s.1 == Aborted(FateOf(items[p], env).error))
  {
    SweepRemoves(w, root, items, env);
    SweepEnds(w, root, items, env);
  }

  /** Over the registry's own items, whose user ids are distinct, the user at
      position `i` is among the removed exactly when its own poll ended it. */
  lemma RemovedFromRegistry(tasks: map<string, Task>, order: seq<string>, env: Env, i: nat, p: nat)
    requires Keyed(tasks) && Distinct(order) && forall k :: k in order ==> k in tasks
    requires i < |order| && p <= |order|
    ensures var items := ItemsOf(tasks, order);
            order[i] in Removed(items[..p], env) <==> i < p && Ends(FateOf(items[i], env))
  {
    var items := ItemsOf(tasks, order);
    RemovedMembers(items[..p], env, order[i]);
    assert items[i].1.userId == order[i];
    if order[i] in Removed(items[..p], env) {
      var j :| 0 <= j < p && items[..p][j].1.userId == order[i] && Ends(FateOf(items[..p][j], env));
      assert items[j].1.userId == order[j];
    } else if i < p {
      assert items[..p][i] == items[i];
    }
  }

  /** The user-level reading of a sweep over the registry's items: the task of
      the user at position `i` is removed exactly when it is polled before any
      query fails and that poll ends it; a task that stays is untouched, and no
      task appears. */
  lemma SweepDecidesEachTask(tasks: map<string, Task>, order: seq<string>, disk: DiskState,
                             root: Path, env: Env, i: nat)
    requires Keyed(tasks) && Distinct(order) && forall k :: k in order <==> k in tasks
    requires i < |order|
    ensures var items := ItemsOf(tasks, order);
            var s := SweepSpec(World(tasks, disk, []), root, items, env);
            && (order[i] in s.0.tasks <==> !(i < Processed(items, env) && Ends(FateOf(items[i], env))))
            && (order[i] in s.0.tasks ==> s.0.tasks[order[i]] == tasks[order[i]])
            && s.0.tasks.Keys <= tasks.Keys
  {
    var items := ItemsOf(tasks, order);
    var p := Processed(items, env);
    SweepOutcome(World(tasks, disk, []), root, items, env);
    RemovedFromRegistry(tasks, order, env, i, p);
  }

  lemma {:induction false} SameFates(items: seq<(string, Task)>, env: Env, env': Env)
    requires env.clock == env'.clock && env.query == env'.query
    ensures Processed(items, env) == Processed(items, env')
    ensures Removed(items, env) == Removed(items, env')
  {
    if items != [] {
      SameFates(items[1..], env, env');
    }
  }

  /** Which tasks a sweep removes and how it ends depend only on the clock and
      the status replies: not on the disk, the run-directory names, the media
      fetches or what was published before. */
  lemma RemovalIgnoresDelivery(w: World, w': World, root: Path, root': Path, items: seq<(string, Task)>,
                               env: Env, env': Env)
    requires w.tasks == w'.tasks
    requires env.clock == env'.clock && env.query == env'.query
    ensures SweepSpec(w, root, items, env).0.tasks == SweepSpec(w', root', items, env').0.tasks
    ensures SweepSpec(w, root, items, env).1 == SweepSpec(w', root', items, env').1
  {
    SweepOutcome(w, root, items, env);
    SweepOutcome(w', root', items, env');
    SameFates(items, env, env');
    SameFates(items[..Processed(items, env)], env, env');
  }

  /** Every publisher call recorded hands over the run directory named by the
      user and the clock at download time. */
  ghost predicate PublishedRunDirs(published: seq<(string, Path)>, root: Path, env: Env)
  {
    forall j :: 0 <= j < |published| ==> published[j].1 == RunDir(root, published[j].0, env.stamp(published[j].0))
  }

  lemma StepPublishesRunDir(w: World, root: Path, item: (string, Task), env: Env)
    requires PublishedRunDirs(w.published, root, env)
    ensures PublishedRunDirs(Step(w, root, item, env).0.published, root, env)
  {
    var uid := item.0;
    if FateOf(item, env).Ready? {
      var urls := FateOf(item, env).urls;
      if Download(w.disk, root, uid, env.stamp(uid), urls, item.1.title, item.1.tags, env.fetchOk).1.Ok? {
        DownloadSucceeds(w.disk, root, uid, env.stamp(uid), urls, item.1.title, item.1.tags, env.fetchOk);
      }
    }
  }

  /** A sweep only ever publishes run directories. */
  lemma {:induction false} PublishesRunDirs(w: World, root: Path, items: seq<(string, Task)>, env: Env)
    requires PublishedRunDirs(w.published, root, env)
    ensures PublishedRunDirs(SweepSpec(w, root, items, env).0.published, root, env)
    decreases |items|
  {
    if items != [] {
      StepPublishesRunDir(w, root, items[0], env);
      var st := Step(w, root, items[0], env);
      if st.1.None? {
        PublishesRunDirs(st.0, root, items[1..], env);
      }
    }
  }

  // ---- What one sweep publishes ----

  /** One step publishes exactly when its task is ready and the download
      succeeds, and then it publishes that user's run directory. */
  lemma StepPublishes(w: World, root: Path, item: (string, Task), env: Env)
    ensures var f := FateOf(item, env);
            var published := Step(w, root, item, env).0.published;
            && (f.Ready? && Download(w.disk, root, item.0, env.stamp(item.0), f.urls, item.1.title, item.1.tags, env.fetchOk).1.Ok?
                ==> published == w.published + [(item.0, RunDir(root, item.0, env.stamp(item.0)))])
            && (!(f.Ready? && Download(w.disk, root, item.0, env.stamp(item.0), f.urls, item.1.title, item.1.tags, env.fetchOk).1.Ok?)
                ==> published == w.published)
  {
    var f := FateOf(item, env);
    if f.Ready? {
      var uid := item.0;
      if Download(w.disk, root, uid, env.stamp(uid), f.urls, item.1.title, item.1.tags, env.fetchOk).1.Ok? {
        DownloadSucceeds(w.disk, root, uid, env.stamp(uid), f.urls, item.1.title, item.1.tags, env.fetchOk);
      }
    }
  }

  /** The world after the sweep has handled the first `i` items. */
  function WorldAt(w: World, root: Path, items: seq<(string, Task)>, env: Env, i: nat): (r: World)
    requires i <= |items|
    ensures i == 0 ==> r == w
  {
    assert i == 0 ==> items[..i] == [];
    SweepSpec(w, root, items[..i], env).0
  }

  lemma {:induction false} ProcessedPrefix(items: seq<(string, Task)>, env: Env, i: nat)
    requires i <= Processed(items, env)
    ensures Processed(items[..i], env) == i
  {
    if i > 0 {
      assert items[..i][1..] == items[1..][..i - 1];
      ProcessedPrefix(items[1..], env, i - 1);
    }
  }

  /** Running a sweep over items that raise nothing, then one more item, is
      running the step of that item after the sweep. */
  lemma {:induction false} SweepSnoc(w: World, root: Path, items: seq<(string, Task)>, item: (string, Task), env: Env)
    requires Processed(items, env) == |items|
    ensures var st := Step(SweepSpec(w, root, items, env).0, root, item, env);
            SweepSpec(w, root, items + [item], env) == if st.1.Some? then (st.0, Aborted(st.1.value)) else (st.0, Finished)
    decreases |items|
  {
    StepEffect(w, root, (items + [item])[0], env);
    if items == [] {
      assert [item][1..] == [];
    } else {
      assert (items + [item])[0] == items[0] && (items + [item])[1..] == items[1..] + [item];
      SweepSnoc(Step(w, root, items[0], env).0, root, items[1..], item, env);
    }
  }

  /** A sweep's world is the world after the items it gets through. */
  lemma {:induction false} SweepStopsAt(w: World, root: Path, items: seq<(string, Task)>, env: Env)
    ensures SweepSpec(w, root, items, env).0 == WorldAt(w, root, items, env, Processed(items, env))
    decreases |items|
  {
    if items != [] {
      var p := Processed(items, env);
      StepEffect(w, root, items[0], env);
      if p == 0 {
        assert Step(w, root, items[0], env).0 == w;
      } else {
        var st := Step(w, root, items[0], env);
        SweepStopsAt(st.0, root, items[1..], env);
        assert items[..p][0] == items[0] && items[..p][1..] == items[1..][..p - 1];
      }
    }
  }

  /** A sweep is its steps in order, up to the first failing query: the world
      after `i + 1` items is the step of item `i` on the world after `i`. */
  lemma SweepIsSteps(w: World, root: Path, items: seq<(string, Task)>, env: Env, i: nat)
    requires i < Processed(items, env)
    ensures WorldAt(w, root, items, env, i + 1) == Step(WorldAt(w, root, items, env, i), root, items[i], env).0
  {
    ProcessedPrefix(items, env, i);
    assert items[..i + 1] == items[..i] + [items[i]];
    SweepSnoc(w, root, items[..i], items[i], env);
  }

  /** The publisher calls of a sweep, in order: starting from those made
      before, item `i` (before the first failing query) adds one call, with its
      user's run directory, exactly when it is ready and its download from the
      disk as the sweep left it succeeds; the sweep's calls are those after the
      last such item. */
  lemma SweepPublishes(w: World, root: Path, items: seq<(string, Task)>, env: Env, i: nat)
    requires i < Processed(items, env)
    ensures var before := WorldAt(w, root, items, env, i);
            var f := FateOf(items[i], env);
            var uid := items[i].0;
            var ok := f.Ready? && Download(before.disk, root, uid, env.stamp(uid), f.urls,
                                           items[i].1.title, items[i].1.tags, env.fetchOk).1.Ok?;
            WorldAt(w, root, items, env, i + 1).published
            == before.published + (if ok then [(uid, RunDir(root, uid, env.stamp(uid)))] else [])
    ensures SweepSpec(w, root, items, env).0.published == WorldAt(w, root, items, env, Processed(items, env)).published
  {
    SweepIsSteps(w, root, items, env, i);
    StepPublishes(WorldAt(w, root, items, env, i), root, items[i], env);
    SweepStopsAt(w, root, items, env);
  }
}

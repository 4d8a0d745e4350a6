# Video-generation task pipeline

This project models the in-memory task pipeline of `my/gen/video.py`. A user
submits a video-generation request to a remote service, and the service's task
id is stored in a module-level registry keyed by user id. A background loop
then sweeps the registry:

- it polls each task;
- it drops a task that has been waiting for more than 300 whole seconds;
- when a task's videos are ready, it downloads them into a fresh timestamped
  directory, next to one `.txt` description file per video;
- it hands that directory to a publisher and removes the task.

The model is written in Dafny. It has seven modules:

- `Common` holds the task record (the `GenVideosTask` dataclass of
  `my/schemas/task.py`) and the exceptions as an `Error` datatype.
- `Registry` holds the registry as a class. It stores the task map and the
  insertion order of its keys, which is the order a Python dict yields them.
- `Replies` holds the decision rules on the service's replies and on the clock:
  accepting a submission, the timeout test, and interpreting a status reply.
  These are pure functions, and each reply is a value.
- `Naming` derives the file names and the description text for a result URL.
  `ParseSidecar` is added as the partner that reads a description back.
- `Storage` covers the file-system side of `download_videos`. The disk is a
  class with the set of existing directories and the log of file writes, in
  order. `Download` is the specification function that the imperative
  `DownloadVideos` is proved against.
- `Pipeline` covers submission, one poll, and one sweep of
  `process_gen_video_tasks`:
  - `Sweep` is an imperative loop, proved equal to the specification function
    `SweepSpec`.
  - `Env` gathers what the outside world answers: the clock, the status
    replies, the formatted timestamp, and which media fetches succeed.
- `LiveIteration` models the sweep as the source writes it, over the live
  dictionary (see "## Findings").

Time is counted in whole milliseconds. This way the `int(...)` truncation of
the elapsed time is visible: a task times out exactly when
`now - submit_time >= 301000` ms.

Behaviour of the code that one might expect to be otherwise, and that the model
reproduces as the code has it:

- **A failing status query does not remove the task.** Abandoning a task whose
  query fails would be the natural policy. In the code, the exception escapes
  the `for` loop, the task stays registered, and the rest of that sweep is
  skipped, so the task is polled again on the next sweep. `SweepOutcome`
  states this.
- **A finished task with an empty URL list is not delivered.** The test
  `if videos_url_list:` treats the empty list like "still in progress", so no
  download of zero files happens. The task stays registered until it completes
  again or times out (`PollFate`).
- **The timeout compares whole seconds.** It is not `elapsed > 300` on the exact
  elapsed time: the code compares the truncated whole seconds, so 300.999 s
  still queries (`TimeoutBoundary`).
- **The sweep iterates the live dictionary, not a snapshot.** `Sweep` models
  iteration over a snapshot taken when the sweep starts. The behaviour of the
  code as written is recorded under "## Findings".

## Model

| member | source | states |
|---|---|---|
| Registry.TaskRegistry.constructor | my/gen/video.py:21 | the registry starts empty |
| Registry.TaskRegistry.Items | my/gen/video.py:249 | the snapshot of `gen_video_tasks.items()`: each entry is a registered user with its own task, every registered user appears, and no user appears twice |
| Registry.TaskRegistry.CheckTask | my/gen/video.py:27-30 | fails with TaskPending exactly when the user id is given and already has a task; changes nothing |
| Registry.TaskRegistry.AddTask | my/gen/video.py:33-40 | a missing user id fails first, then a missing task; otherwise the map gets `uid := task` and every other key is unchanged; a new key goes to the end of the iteration order, a replaced one keeps its place; on failure nothing changes |
| Registry.TaskRegistry.RemoveTask | my/gen/video.py:43-44 | removes only `uid`, and is a no-op (order included) when `uid` is absent; the remaining keys keep their relative order |
| Registry.Restrict | my/gen/video.py:44 | the iteration order after removals holds exactly the surviving keys, in their old order |
| Registry.RestrictTwice | my/gen/video.py:44 | two successive removals leave the same order as one removal of both |
| Replies.AcceptSubmit | my/gen/video.py:98-117 | accepted exactly when the HTTP status is 200, the body status is 200 and a task id is present, and then yields that id; a non-200 HTTP status raises with that status; a body status other than 200 raises with code 200; a missing `status` key raises a missing-field error for `status`, and a missing `task_id` under an accepted status raises one for `task_id` |
| Replies.TimedOut | my/gen/video.py:158-161 | the timeout test `int(now - submit_time) > 300`; its exact cut-off is stated by `TimedOutExactly` |
| Replies.TruncSeconds | my/gen/video.py:158 | `int()` of a millisecond count truncates toward zero, on both signs |
| Replies.TimedOutExactly | my/gen/video.py:158-161 | the timeout test holds exactly when at least 301000 ms have elapsed |
| Replies.TimeoutBoundary | my/gen/video.py:158-167 | at 299 s and at 300.999 s a finished task is delivered; at 301 s it is expired |
| Replies.NegativeElapsedNeverTimesOut | my/gen/video.py:158-161 | a clock reading before the submission never times a task out |
| Replies.InterpretQuery | my/gen/video.py:169-195 | a URL list (exactly `videos`) when state is 1; nothing when another state comes with a progress field; a non-200 HTTP status or body status raises with the HTTP status; each missing key (`status`, `state`, `videos` for state 1, `progress` otherwise) raises a missing-field error naming that key |
| Replies.PollFate | my/gen/video.py:158-195 | expired exactly when timed out (before any query); otherwise a failing query is exactly a failed poll carrying its error, a non-empty URL list is exactly a ready poll with that list, and in progress is exactly an in-progress reply or a state-1 reply with no URL |
| Replies.ExpiredIgnoresReply | my/gen/video.py:158-165 | a timed-out poll does not depend on the reply: the service is never consulted |
| Naming.MediaName | my/gen/video.py:223 | `url.split('/')[-1]`: the text after the last '/', or the whole URL without one; characterised by `MediaNameIsLastSegment` |
| Naming.Stem | my/gen/video.py:227 | `os.path.splitext(name)[0]`: a prefix of the name, cut at the last dot unless only dots precede it |
| Naming.Ext | my/gen/video.py:227 | `os.path.splitext(name)[1]`: a suffix of the name; with `Stem` it makes up the whole name (`SplitExtParts`) |
| Naming.SidecarName | my/gen/video.py:227-228 | the description file name always ends in `.txt`; when it collides with the media name is stated by `SidecarCollides` |
| Naming.SidecarText | my/gen/video.py:201-205 | the title, a newline, then the tag line; `SidecarRoundTrip` shows it determines both |
| Naming.MediaNameIsLastSegment | my/gen/video.py:223 | the media name holds no '/', is a suffix of the URL and follows its last '/' |
| Naming.SplitExtParts | my/gen/video.py:227 | name = stem + extension; a non-empty extension is a final dot-suffix without another dot, after a stem that is not all dots; an empty one means no dot, or only dots before the last one |
| Naming.SidecarCollides | my/gen/video.py:224-228 | the description file's name equals the media name exactly when the media extension is `.txt` |
| Naming.FormatTags | my/gen/video.py:201 | the tag line is empty exactly when there are no tags |
| Naming.SplitFormatTags | my/gen/video.py:201 | splitting the tag line at spaces yields `#tag` for each tag, in order, for tags without spaces |
| Naming.SidecarRoundTrip | my/gen/video.py:201-205 | a description file's content determines its title and tags, for a title without a newline and tags without a space |
| Naming.NamingExamples | my/gen/video.py:223-228 | `http://host/a.mp4` gives `a.mp4` and `a.txt`; title `T` with tags `x`, `y` gives `T\n#x #y`; `.mp4` has no extension; `a.tar.gz` has `.gz` |
| Storage.FailedAt | my/gen/video.py:231-232 | the index of the first URL whose fetch fails: every earlier fetch succeeds |
| Storage.InterleaveLength | my/gen/video.py:221-238 | the URL loop performs two writes per URL before the failing one, plus one for the failing URL |
| Storage.InterleaveAt | my/gen/video.py:221-238 | for each URL before the failure, its description file is written immediately before its media file, in list order |
| Storage.InterleaveLast | my/gen/video.py:229-232 | when a fetch fails, the last write is that URL's description file |
| Storage.Disk.EnsureDirs | my/gen/video.py:53 | the directory and its parent exist afterwards; nothing is written |
| Storage.Disk.MakeDirs | my/gen/video.py:219 | fails exactly when the path exists, and then changes nothing; otherwise adds it |
| Storage.Disk.Write | my/gen/video.py:203-205 | appends one write to the log |
| Storage.GetOrCreateUserVideoDir | my/gen/video.py:47-56 | returns `<root>/videos/<uid>`; creates it and its parent only when it is missing |
| Storage.FetchAll | my/gen/video.py:221-240 | the log grows by the description and media writes of each URL, in order, stopping after the description of the first failed fetch, which is the error returned |
| Storage.DownloadVideos | my/gen/video.py:210-242 | the disk and result equal the `Download` specification |
| Storage.Download | my/gen/video.py:210-242 | the effect of download_videos: a successful download returns the run directory `<root>/videos/<uid>/<stamp>`, and no directory ever disappears |
| Storage.DownloadRefusesExistingRunDir | my/gen/video.py:216-219 | the download fails with RunDirExists exactly when the timestamped run directory exists, and then writes nothing |
| Storage.DownloadSucceeds | my/gen/video.py:214-242 | a successful download returns the run directory, which was fresh; every fetch succeeded; the log grows by exactly 2 writes per URL, description at 2i and media at 2i+1 |
| Storage.DownloadFetchFailure | my/gen/video.py:229-232 | the first failing fetch is the error; 2k+1 writes were made, the last being that URL's description |
| Pipeline.SubmitCreateVideosTask | my/gen/video.py:59-121 | a user with a pending task is refused first, then a rejected reply; on success the record holds the uid, returned task id, start time, title and tags, and only that key changes; on failure the registry is unchanged; tasks stay keyed by their user id |
| Pipeline.GenVideosUrl | my/gen/video.py:154-195 | a timed-out task is removed and nothing is returned; otherwise the result is the interpreted reply and the registry is unchanged |
| Pipeline.Deliver | my/gen/video.py:252-263 | a ready task is removed whatever the download does (the `finally` clause), and at most one publisher call is appended after the earlier ones |
| Pipeline.Step | my/gen/video.py:250-263 | one loop turn: an escaping query error leaves everything unchanged; otherwise at most this task's user is removed and publisher calls are only appended |
| Pipeline.SweepSpec | my/gen/video.py:249-263 | a sweep over a snapshot never adds a task and only appends publisher calls |
| Pipeline.ProcessItem | my/gen/video.py:250-263 | one loop turn equals the specification step: a ready task is downloaded, published on success, and removed in every case; a query error escapes |
| Pipeline.Sweep | my/gen/video.py:249-263 | the registry, disk, publisher calls and ending equal `SweepSpec` over the items at sweep start; the iteration order is the old one restricted to the surviving keys |
| Pipeline.Processed | my/gen/video.py:249-250 | the number of items the sweep gets through: no earlier item's query fails, and the item at that index (if any) is the first whose query fails |
| Pipeline.SweepOutcome | my/gen/video.py:249-263 | a sweep removes exactly the tasks ended (expired or ready) by polls before the first failed query; it finishes exactly when no query fails, otherwise it ends with that query's error |
| Pipeline.SweepDecidesEachTask | my/gen/video.py:249-263 | for the registry's own items, a user's task is removed exactly when it is polled before any query fails and the poll ends it; kept tasks are unchanged; no task appears |
| Pipeline.RemovalIgnoresDelivery | my/gen/video.py:252-263 | which tasks a sweep removes and how it ends do not depend on the disk, the timestamps, the media fetches or earlier publications: a ready task is removed whether its download succeeds or fails |
| Pipeline.StepPublishes | my/gen/video.py:255-259 | one turn publishes, once and with its user's run directory, exactly when the task is ready and its download succeeds; otherwise nothing is published |
| Pipeline.WorldAt | my/gen/video.py:249-263 | the state after the first items of a sweep; after none it is the starting state |
| Pipeline.SweepIsSteps | my/gen/video.py:249-263 | before the first failing query, the state after item i+1 is item i's loop turn applied to the state after item i |
| Pipeline.SweepPublishes | my/gen/video.py:249-263 | item i before the first failing query adds exactly one publisher call, with its run directory, exactly when it is ready and its download from the disk as left by the earlier items succeeds; the sweep's calls are those after the last such item |
| Pipeline.PublishesRunDirs | my/gen/video.py:255-259 | every publisher call hands over `<root>/videos/<uid>/<stamp>` for its user; which items publish is stated by `SweepPublishes` |
| LiveIteration.LiveSweep | my/gen/video.py:249-263 | the sweep over the live dict: it finishes only when the dict still has its starting size, and it never adds a task |
| LiveIteration.LiveSweepRemovesAtMostOne | my/gen/video.py:249-263 | iterating the live dict, a sweep removes at most one task, and when it removes one it ends in the dict-changed-size error |
| LiveIteration.LiveSweepKeepsExpiredTask | my/gen/video.py:245-270 | two expired tasks: the live sweep removes one and aborts, while the snapshot sweep removes both and finishes |

## Left out

- The request payload of `submit_create_videos_task` (my/gen/video.py:63-92) and its `subject` parameter are left out. They only shape the request body, which is never sent.
- Pipeline.SubmitCreateVideosTask: the reply is modelled as a JSON object whose keys are present or absent. A non-object body, a `data` that is null, and a `task_id` that is JSON null are not modelled.
- Replies.InterpretQuery: an absent key of the status reply is `None`, and a key present with the JSON value null is not modelled. The source treats null differently from an absent key:
  - `state` 1 with `videos` null raises a TypeError from `len` at my/gen/video.py:191, not a missing-field error. The sweep still stops at line 249 and the task stays registered, as in the model.
  - `progress` null at line 194 is logged, and the task counts as still in progress. The model raises a missing-field error instead, which stops the sweep.
  - `status` null fails the comparison at line 173, and line 181 raises with status 200. The model raises a missing-field error instead; both stop the sweep.
- HTTP traffic, streaming in chunks and `raise_for_status` are left out. Each status reply is a value in `Env.query`, and each media fetch either succeeds or fails according to `Env.fetchOk`. A media write records the URL it came from, not the bytes.
- A fetch that fails part way is not modelled. A partly written media file is not logged, and the failed fetch is not logged as a write.
- Storage.Disk.Write: the two `f.write` calls of a description file are one write of the whole text. An interruption between them is not modelled.
- `upload_douyin` (my/gen/video.py:124-151) automates a browser through modules that are not part of this model. It is an opaque publish call, recorded as `(uid, dir)` when the download succeeded. Its failure, like a download failure, is caught, and the task is removed either way, so its outcome changes nothing the model tracks.
- Logging, `asyncio.sleep(5)` between sweeps and the 10-second back-off after an escaped exception (my/gen/video.py:265-270) are timing only. The model stops at one sweep; the `while True` loop around it is not modelled.
- Concurrency is not modelled. A submission that interleaves with a sweep at an `await` point falls outside the model; a sweep is one uninterrupted sequence of steps.
- The clock (`time.time`, `datetime.now().strftime`) is a parameter. `Env.clock` gives the instant at which each user's task is polled, and `Env.stamp` gives the formatted run-directory name. Floating-point seconds are replaced by integer milliseconds.
- Paths are POSIX. `os.path.join` is `dir + "/" + name` for a relative name, and `splitext` is the POSIX one, applied to a name with no separator. Windows separators are not modelled, and neither are URLs whose last segment is empty or holds a `\`.
- Storage.GetOrCreateUserVideoDir: the user id is joined as plain text. Two cases are not modelled:
  - An absolute user id makes pathlib's `/` at my/gen/video.py:49 discard `<root>/videos`, so the source's run directory is then `<uid>/<stamp>`, not `<root>/videos/<uid>/<stamp>` as `Storage.Download` and `Pipeline.PublishesRunDirs` state.
  - For a user id containing `/`, `mkdir(parents=True)` also creates the intermediate directories, which `Storage.Disk.EnsureDirs` does not add.
- Storage.SidecarWrite: the description text is recorded as written by the program. Text-mode newline translation is not modelled, e.g. the `'\n'` of my/gen/video.py:204 becoming `'\r\n'` on Windows.
- Registry.TaskRegistry.RemoveTask: it is called with `task.user_id`, as the source does. That this equals the dict key is stated as the `Keyed` invariant, which submission keeps. It is not enforced by the registry.
- app.py, my/daemon.py, my/download_video.py, the API and service routes and the utility modules are not part of this model. They are wiring, process I/O or a proxy with no pipeline logic.

## Findings

| source | as written | input that shows it | evidently intended | confidence | as-written member | corrected member |
|---|---|---|---|---|---|---|
| my/gen/video.py:249 | the sweep iterates `gen_video_tasks.items()` while its body removes entries (lines 164 and 263); the next step of a CPython dict iterator then raises RuntimeError, which the outer handler at lines 267-270 catches | tasks of users "a" and "b", both submitted at instant 0 and polled at 400 s: "a" is removed, the iterator raises, and "b" stays registered until a later sweep | iterate a snapshot (`list(gen_video_tasks.items())`) so one sweep decides every task | not executed; CPython's dict iterator semantics | LiveIteration.LiveSweepKeepsExpiredTask | Pipeline.SweepDecidesEachTask |

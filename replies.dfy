/** The decision rules applied to the generation service's replies and to the
    clock: when a submission is accepted, when a task has timed out, and what a
    status reply means. No request is sent; each reply is a value. */
module Replies {
  import opened Common

  /** The reply to the creation request. `status` and `taskId` are None when the
      JSON body lacks the `status` key or the `data.task_id` key. */
  datatype SubmitReply = SubmitReply(httpStatus: int, status: Option<int>, taskId: Option<string>)

  /** The reply to a status query. An absent key of the JSON body is None
      (`state` is also None when the body has no `data`). */
  datatype QueryReply = QueryReply(
    httpStatus: int,
    status: Option<int>,
    state: Option<int>,
    progress: Option<int>,
    videos: Option<seq<string>>)

  /** The acceptance test of submit_create_videos_task: the remote task id, or
      the exception raised. A body whose `status` is not 200 raises with the
      HTTP status of the response, which is then 200. */
  function AcceptSubmit(reply: SubmitReply): (r: Result<string>)
    ensures r.Ok? <==> reply.httpStatus == 200 && reply.status == Some(200) && reply.taskId.Some?
    ensures r.Ok? ==> r.value == reply.taskId.value
    ensures reply.httpStatus != 200 ==> r == Err(SubmitRejected(reply.httpStatus))
    ensures reply.httpStatus == 200 && reply.status.Some? && reply.status.value != 200 ==> r == Err(SubmitRejected(200))
    ensures r.Err? && r.error.MissingField? ==> reply.httpStatus == 200
    ensures reply.httpStatus == 200 && reply.status.None? ==> r == Err(MissingField("status"))
    ensures reply.httpStatus == 200 && reply.status == Some(200) && reply.taskId.None? ==> r == Err(MissingField("task_id"))
  {
    if reply.httpStatus != 200 then Err(SubmitRejected(reply.httpStatus))
    else if reply.status.None? then Err(MissingField("status"))
    else if reply.status.value != 200 then Err(SubmitRejected(reply.httpStatus))
    else if reply.taskId.None? then Err(MissingField("task_id"))
    else Ok(reply.taskId.value)
  }

  /** Python's `int()` of a number of seconds given in milliseconds: truncation
      toward zero, which is not Dafny's `/` for negative operands. */
  function TruncSeconds(ms: int): (s: int)
    ensures ms >= 0 ==> 0 <= s && s * 1000 <= ms < s * 1000 + 1000
    ensures ms < 0 ==> s <= 0 && s * 1000 - 1000 < ms <= s * 1000
  {
    if ms >= 0 then ms / 1000 else -((-ms) / 1000)
  }

  /** `int(now - task.submit_time)`, in whole seconds. */
  function ElapsedSeconds(now: Millis, submitted: Millis): int
  {
    TruncSeconds(now - submitted)
  }

  /** The timeout test of gen_videos_url: more than 300 whole seconds. */
  predicate TimedOut(now: Millis, submitted: Millis)
  {
    ElapsedSeconds(now, submitted) > 300
  }

  /** The cut-off in milliseconds: a task times out exactly when 301 full seconds
      have passed, so every instant of the 301st second still queries. */
  lemma TimedOutExactly(now: Millis, submitted: Millis)
    ensures TimedOut(now, submitted) <==> now - submitted >= 301000
  {
    var s := TruncSeconds(now - submitted);
    if now - submitted >= 301000 {
      assert s * 1000 + 1000 > 301000;
    } else if now - submitted >= 0 {
      assert s * 1000 <= now - submitted < 301000;
    }
  }

  /** What a status reply means: an error, the finished URL list, or None while
      the video is still being generated. */
  function InterpretQuery(reply: QueryReply): (r: Result<Option<seq<string>>>)
    ensures r.Ok? <==> reply.httpStatus == 200 && reply.status == Some(200) && reply.state.Some?
                       && (if reply.state.value == 1 then reply.videos.Some? else reply.progress.Some?)
    ensures r.Ok? && r.value.Some? ==> reply.state == Some(1) && r.value.value == reply.videos.value
    ensures r.Ok? && r.value.None? ==> reply.state.value != 1
    ensures reply.httpStatus != 200 ==> r == Err(QueryRejected(reply.httpStatus))
    ensures reply.httpStatus == 200 && reply.status.Some? && reply.status.value != 200 ==> r == Err(QueryRejected(200))
    ensures reply.httpStatus == 200 && reply.status.None? ==> r == Err(MissingField("status"))
    ensures reply.httpStatus == 200 && reply.status == Some(200) && reply.state.None? ==> r == Err(MissingField("state"))
    ensures reply.httpStatus == 200 && reply.status == Some(200) && reply.state == Some(1) && reply.videos.None?
            ==> r == Err(MissingField("videos"))
    ensures reply.httpStatus == 200 && reply.status == Some(200) && reply.state.Some? && reply.state.value != 1 && reply.progress.None?
            ==> r == Err(MissingField("progress"))
  {
    if reply.httpStatus != 200 then Err(QueryRejected(reply.httpStatus))
    else if reply.status.None? then Err(MissingField("status"))
    else if reply.status.value != 200 then Err(QueryRejected(reply.httpStatus))
    else if reply.state.None? then Err(MissingField("state"))
    else if reply.state.value == 1 then
      (if reply.videos.None? then Err(MissingField("videos")) else Ok(Some(reply.videos.value)))
    else if reply.progress.None? then Err(MissingField("progress"))
    else Ok(None)
  }

  /** Where one poll of one task leads. */
  datatype Fate =
    | Expired                       // timed out: removed without a query
    | QueryFailed(error: Error)     // the query raised
    | InProgress                    // still generating, or finished with no URL
    | Ready(urls: seq<string>)      // finished with at least one URL

  /** The poll of `task` at instant `now`, with `reply` as the answer it would get. */
  function PollFate(now: Millis, task: Task, reply: QueryReply): (f: Fate)
    ensures f.Expired? <==> TimedOut(now, task.submitTime)
    ensures f.Ready? ==> |f.urls| > 0 && InterpretQuery(reply) == Ok(Some(f.urls))
    ensures f.QueryFailed? ==> InterpretQuery(reply) == Err(f.error)
    ensures f.InProgress? ==> && !TimedOut(now, task.submitTime)
                              && (InterpretQuery(reply) == Ok(None) || InterpretQuery(reply) == Ok(Some([])))
    ensures !TimedOut(now, task.submitTime) && InterpretQuery(reply).Err? ==> f == QueryFailed(InterpretQuery(reply).error)
    ensures !TimedOut(now, task.submitTime) && InterpretQuery(reply) == Ok(Some([])) ==> f == InProgress
    ensures !TimedOut(now, task.submitTime) && InterpretQuery(reply) == Ok(None) ==> f == InProgress
    ensures forall urls :: !TimedOut(now, task.submitTime) && InterpretQuery(reply) == Ok(Some(urls)) && urls != []
                           ==> f == Ready(urls)
  {
    if TimedOut(now, task.submitTime) then Expired
    else match InterpretQuery(reply)
      case Err(e) => QueryFailed(e)
      case Ok(None) => InProgress
      case Ok(Some(urls)) => if urls == [] then InProgress else Ready(urls)
  }

  /** A poll with this fate ends the task: the sweep then removes it. */
  predicate Ends(f: Fate)
  {
    f.Expired? || f.Ready?
  }

  /** A timed-out poll is decided by the clock alone: the reply is never consulted. */
  lemma ExpiredIgnoresReply(now: Millis, task: Task, a: QueryReply, b: QueryReply)
    requires now - task.submitTime >= 301000
    ensures PollFate(now, task, a) == PollFate(now, task, b) == Expired
  {
    TimedOutExactly(now, task.submitTime);
  }

  /** At 300.999 seconds the task is still queried; at 301 seconds it is not;
      a task finishing at 299 seconds is delivered. */
  lemma TimeoutBoundary(task: Task, reply: QueryReply)
    requires InterpretQuery(reply) == Ok(Some(["http://host/a.mp4"]))
    ensures PollFate(task.submitTime + 300999, task, reply) == Ready(["http://host/a.mp4"])
    ensures PollFate(task.submitTime + 299000, task, reply) == Ready(["http://host/a.mp4"])
    ensures PollFate(task.submitTime + 301000, task, reply) == Expired
  {
    TimedOutExactly(task.submitTime + 300999, task.submitTime);
    TimedOutExactly(task.submitTime + 299000, task.submitTime);
    TimedOutExactly(task.submitTime + 301000, task.submitTime);
  }

  /** A clock that reads earlier than the submission never times a task out. */
  lemma NegativeElapsedNeverTimesOut(now: Millis, submitted: Millis)
    requires now < submitted
    ensures !TimedOut(now, submitted)
  {
    TimedOutExactly(now, submitted);
  }
}

/** Values shared by the whole video-generation pipeline: the task record,
    the errors the pipeline raises, and the usual Option/Result wrappers. */
module Common {

  datatype Option<T> = None | Some(value: T)

  /** A value, or the error that the Python code raises instead of returning one. */
  datatype Result<T> = Ok(value: T) | Err(error: Error)

  /** The outcome of an operation that returns nothing on success. */
  datatype Outcome = Pass | Fail(error: Error)

  /** A wall-clock instant, in whole milliseconds. The source reads the clock as a
      floating-point number of seconds; milliseconds keep the fractional part that
      its `int(...)` truncation throws away. */
  type Millis = int

  /** The exceptions of the pipeline. `code` is the HTTP status the raised
      `HTTPException` carries. */
  datatype Error =
    | TaskPending(uid: string)          // the user already has a task in flight
    | MissingUserId                     // add_task with uid None
    | MissingTask(uid: string)          // add_task with task None
    | SubmitRejected(code: int)         // creation request refused by the service
    | QueryRejected(code: int)          // status query refused by the service
    | MissingField(name: string)        // KeyError on the JSON body of a reply
    | RunDirExists(path: string)        // os.makedirs(..., exist_ok=False) on an existing path
    | FetchFailed(url: string)          // raise_for_status on a media download
    | DictChangedSize                   // RuntimeError: a dict iterator resumed after a removal

  /** One in-flight generation task (the GenVideosTask record). */
  datatype Task = Task(userId: string, taskId: string, submitTime: Millis, title: string, tags: seq<string>)
}

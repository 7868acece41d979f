/** Optional values, results and the errors the action runner can raise. */
module Results {

  /** Rust's `Option<T>`. */
  datatype Option<+T> = None | Some(value: T)

  /** Rust's `Result<T, E>`; the runner uses it with `Error` (anyhow's error). */
  datatype Result<+T, +E> = Ok(value: T) | Err(error: E)

  /** 32-bit signed integer, the type of a process exit code (`i32`). */
  newtype Int32 = x: int | -0x8000_0000 <= x < 0x8000_0000

  /** The ways a run of actions can fail. */
  datatype Error =
      /** a `Cancel` answer on an action marked `break_if_cancel` */
    | StopRequested
      /** a non-zero exit code on an action that does not ignore it */
    | ExitCode(action: string, code: Int32)
      /** the prompt adapter failed (e.g. the input stream closed) */
    | PromptFailed(reason: string)
      /** the script adapter failed (e.g. the command could not be spawned) */
    | ScriptFailed(reason: string)
      /** the environment supplied no further prompt answer or script outcome */
    | NoReply
}

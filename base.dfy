/** Shared vocabulary of the session page: optional values and log levels. */
module Base {

  /** An optional value; `None` stands for JavaScript's `undefined`. */
  datatype Option<+T> = None | Some(value: T)

  /**
   * Severity tags carried by debug-log entries and terminal lines.
   * `Success` is not in the declared `DebugLog` level union, but the
   * display component hands it to the log callback anyway.
   */
  datatype Level = Debug | Info | Warn | Error | Success
}

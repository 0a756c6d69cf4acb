/** Failure-carrying values used across the model: `Option` for the optional
    command-line values and Rust's `Option` results, `Result` for the CSV
    reader's per-record outcome and for loading the configuration file. */
module Results {

  datatype Option<+T> = None | Some(value: T) {

    /** The wrapped value, or `default` when there is none. */
    function GetOr(default: T): T {
      match this
      case Some(v) => v
      case None => default
    }
  }

  /** An outcome whose error is already rendered as the text Rust's
      `Display` would print for it. */
  datatype Result<+T> = Ok(value: T) | Err(error: string)
}

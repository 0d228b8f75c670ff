/** Failure-compatible wrappers and the error taxonomy of the configuration-resolution
    layer of `bgcval2/analysis_timeseries.py`.

    Python raises exceptions or calls `sys.exit(1)`; here every such exit is a `Failure`
    carrying an `Error`, so that the first error on the evaluation path is the result.
 */
module Outcomes {

  datatype Option<+T> = None | Some(value: T) {
    predicate IsFailure() { None? }

    function PropagateFailure<U>(): Option<U>
      requires None?
    {
      None
    }

    function Extract(): T
      requires Some?
    {
      value
    }
  }

  /** Why `sys.exit(1)` was called. */
  datatype ExitReason =
    | SuiteFileMissing(path: string)      // no `<suite>.yml` in the key-lists directory
    | SuiteFileCorrupt(path: string)      // the suite YAML is empty or not a mapping
    | SuiteKeyConflict(key: string)       // an enabled key is later given a different boolean
    | KeyFileCorrupt(path: string)        // the key YAML is empty or not a mapping

  datatype Error =
    | KeyError(key: string)
    | AttributeError(name: string)
    | TypeError(what: string)
    | FileNotFound(path: string)                          // FileNotFoundError
    | InvalidDirectory(dir: string)                       // OSError from list_input_files
    | NoMatchingFiles(dir: string, pattern: string)       // FileNotFoundError from list_input_files
    | ModelFilesNotProvided(name: string)                 // pre-flight, FileNotFoundError
    | ModelFilesNotFound(name: string, missing: seq<string>)  // pre-flight, FileNotFoundError
    | DataFileNotFound(name: string, path: string)        // pre-flight, FileNotFoundError
    | SystemExit(status: int, reason: ExitReason)

  datatype Result<+T> = Success(value: T) | Failure(error: Error) {
    predicate IsFailure() { Failure? }

    function PropagateFailure<U>(): Result<U>
      requires Failure?
    {
      Failure(error)
    }

    function Extract(): T
      requires Success?
    {
      value
    }
  }
}

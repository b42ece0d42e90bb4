/** Outcomes shared by the whole model: the `error` values the Go handlers
    return, and the Option/Result wrappers used in place of Go's
    `(value, error)` pairs and `value, ok` type assertions. */
module Results {

  /** Optional value, used for an argument that may be absent. */
  datatype Option<+T> = None | Some(value: T)

  /** The errors the handlers and `NewConfig` can return, one constructor per
      distinct `errors.New`/`fmt.Errorf` site; the path or index the message
      names is kept, the wording is not. */
  datatype Error =
    | NoDirectories                     // "at least one allowed directory must be provided"
    | InvalidDirectory(dir: string)     // NewConfig: filepath.Abs failed for dir
    | InvalidArguments(tool: string)    // a missing or ill-typed required argument
    | InvalidPath(path: string)         // filepath.Abs failed for a request path
    | OutsideAllowed(path: string)      // "path %q is outside of allowed directories"
    | AccessFailed(path: string)        // os.Stat failed (directory_tree)
    | CheckFailed(path: string)         // os.Stat failed, not with not-exist (create_directory)
    | NotADirectory(path: string)
    | OpenFailed(path: string)
    | ScanFailed(path: string)          // scanner.Err() after the line loop
    | ReadFailed(path: string)          // os.ReadFile failed
    | ReadDirFailed(path: string)       // os.ReadDir failed
    | CreateFailed(path: string)        // os.Mkdir / os.MkdirAll failed
    | NotAString(index: nat)            // "path at index %d must be a string"
    | TreeFailed(cause: Error)          // "failed to build directory tree: %w"

  /** A value or an error, as a Go function returning `(T, error)`. */
  datatype Result<+T> = Ok(value: T) | Err(error: Error)
}

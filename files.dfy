/** An in-memory stand-in for the regular files `os.Open`, `os.ReadFile` and
    `bufio.Scanner` see, keyed by the path string passed to the call. */
module Files {
  import opened Results

  /** An openable file: its raw bytes as text, the lines a `bufio.Scanner`
      yields for it, and the read error its stream meets after the last of
      those lines instead of the end of the file, if any. A directory opens
      but fails on its first read ("is a directory"): no lines and a stream
      error. */
  datatype FileData = FileData(contents: string, lines: seq<string>, streamError: Option<string>)

  /** What the operating system does for a path: an openable file, or a
      failure to open it with the reason the error message gives. */
  datatype FileState = Readable(data: FileData) | Unreadable(reason: string)

  type Store = map<string, FileState>

  /** `os.Open` succeeds exactly for openable files. */
  predicate CanOpen(store: Store, p: string)
  {
    p in store && store[p].Readable?
  }

  /** `os.ReadFile` succeeds when the file opens and its stream reads to the
      end without an error. */
  predicate CanReadFile(store: Store, p: string)
  {
    CanOpen(store, p) && store[p].data.streamError.None?
  }

  /** `err.Error()` of the `*PathError` a failed `os.ReadFile` returns: from
      `open` when the file cannot be opened, from `read` when its stream
      fails. */
  function ReadErrorMessage(store: Store, p: string): string
  {
    if CanOpen(store, p) && store[p].data.streamError.Some? then "read " + p + ": " + store[p].data.streamError.value
    else "open " + p + ": " + (if p in store && store[p].Unreadable? then store[p].reason else "no such file or directory")
  }

  /** `os.ReadFile(p)`: the contents, or the error. */
  function ReadFile(store: Store, p: string): Result<string>
  {
    if CanReadFile(store, p) then Ok(store[p].data.contents) else Err(ReadFailed(p))
  }
}

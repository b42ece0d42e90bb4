# go-filesystem-mcp in Dafny

A model of the core of go-filesystem-mcp, an MCP server that gives a client
file-system tools, each confined to a list of allowed directories.

- **The sandbox.** `NewConfig` builds the allow-list once. It is a list of
  cleaned absolute directories. `IsPathAllowed` is the gate every configured
  handler runs before it touches the disk. A path passes when it is absolute
  and, once cleaned, equals an entry or lies below one at a segment boundary.
- **The handlers.**
  - read_file reads a whole file, or a window of lines chosen by `from`/`to`.
  - directory_tree builds a recursive tree with one goroutine per entry.
  - create_directory uses `Mkdir` or `MkdirAll` and is idempotent.
  - list_directory lists entries as `[DIR]`/`[FILE]` lines.
  - read_multiple_files gives one segment per path, in input order.

How Go's library is stood in for:

- The parts of Go's `path/filepath` on Unix the core relies on are written
  out in `Paths`:
  - `Clean` by lexical segment resolution.
  - `Abs`, with the working directory as a parameter (`None` when `os.Getwd`
    fails).
  - `HasPrefix` as a plain text prefix.
  - `Join`, plus the parent chain that `MkdirAll` walks.
- `strings.Join` and `strings.Split` are in `Strings`.
- The operating system is replaced by values:
  - a file store (`Files.Store`);
  - a tree of nodes (`DirectoryTree.Node`);
  - a listing map (`ListDirectory.Listings`);
  - a mutable `FileSystem` object (`CreateDirectory.FileSystem`).
- Tool arguments are a map of decoded JSON values (`Requests`).

Modules: `Results`, `Strings`, `Paths`, `Requests`, `Files`, `Sandbox`
(config/config.go), `ReadFileTool`, `DirectoryTree`, `CreateDirectory`,
`ListDirectory` and `ReadMultipleFiles` (one per handler file under tool/).

How nondeterminism is modelled:

- `buildTree`'s goroutines and `select` loop have no fixed result order. When
  a subtree fails, its error may either be returned or be lost when the
  result channel is seen closed first. `DirectoryTree.IsOutcome` is therefore
  a relation admitting every result such a schedule can produce.
  `BuildTree` computes one of those results sequentially.
- read_multiple_files names an unspecified bad index, so
  `ReadMultipleFiles.MultiReadOutcome` admits any bad index. Its `Handle`
  fills the result array in an arbitrary order.

A failing subtree does not always fail the directory_tree request: the
`select` race in `buildTree` (tool/directory_tree_handler.go:109-118) may
drop the failed entry and succeed.

## Model

| member | source | states |
|---|---|---|
| Sandbox.IsPathAllowed | config/config.go:35-48 | true exactly when the path is absolute and its cleaned form equals some entry or begins with that entry followed by "/" |
| Sandbox.AnyAdmits | config/config.go:41-47 | the loop with its early `return true` holds exactly when some entry admits the cleaned path |
| Sandbox.NewConfig | config/config.go:14-32 | an empty list gives the no-directories error and no config. On success the list has the input's length and order, and entry i is Clean(Abs(dirs[i])), and is "/" or "/" followed by plain segments when the working directory is absolute. Otherwise the error names the first entry Abs rejects |
| Sandbox.AdmitsIsSegmentPrefix | config/config.go:42-43 | the entry-plus-separator test is exactly "the entry's '/'-pieces are a prefix of the path's pieces", i.e. containment by whole segments |
| Sandbox.RelativePathRejected | config/config.go:36-38 | a relative path is refused whatever the allow-list holds |
| Sandbox.EmptyListRejectsAll | config/config.go:41-47 | an empty allow-list refuses every path |
| Sandbox.AllowedIsMonotone | config/config.go:41-47 | adding entries never turns an allowed path into a refused one |
| Sandbox.RootEntryAdmitsOnlyRoot | config/config.go:43 | with the entry "/" a path is admitted iff it is absolute and cleans to "/" (the required prefix is "//") |
| Sandbox.SegmentBoundaryAdmits | config/config.go:43 | with only "/allowed", "/allowed" and "/allowed/f" are admitted |
| Sandbox.SegmentBoundaryRefusesSibling | config/config.go:43 | with only "/allowed", "/allowed-dirs" is refused |
| Sandbox.SegmentBoundaryRefusesLongerSegment | config/config.go:43 | with only "/allowed", "/allowedx/f" is refused |
| Sandbox.NotAtBoundaryRefused | config/config.go:42-45 | a one-entry list refuses a longer clean path whose character at the entry's length is not "/", so a text prefix ending inside a segment never admits |
| Sandbox.DotDotEscapeRefused | config/config.go:40-45 | cleaning comes first: with only "/a", "/a/../b" is admitted iff b is a |
| Paths.CleanAbsolute | config/config.go:40 | cleaning an absolute path gives "/" or "/" followed by plain segments (none empty, "." or "..") joined by single separators, so no "//" prefix and no trailing separator |
| Paths.AbsIsAbsolute | config/config.go:22-26 | Abs succeeds and gives a cleaned absolute path ("/" or "/" followed by plain segments) for an absolute input, or for any input when the working directory is absolute |
| Paths.CleanPlain | config/config.go:40 | a rooted path of plain segments is left unchanged by Clean |
| Paths.CleanDropsDotDot | config/config.go:40 | "/a/../b" cleans to "/b" |
| Paths.ChainIsAncestry | tool/create_directory_handler.go:50-51 | every directory MkdirAll may make is the root, the path itself, or a directory above it |
| Strings.SplitJoin | tool/list_directory_handler.go:52 | splitting at c the join of c-free parts with c gives the parts back |
| Strings.JoinSplit | config/config.go:42-43 | the helper behind AdmitsIsSegmentPrefix: joining the pieces of a text at c with c gives the text back |
| ReadFileTool.ScanLines | tool/read_file_handler.go:58-77 | the scan loop keeps exactly the window slice of lines [start, end] in file order, and it leaves by `break` iff the file has a line `end` (end < number of lines) |
| ReadFileTool.Handle | tool/read_file_handler.go:24-90 | the handler's answer equals ReadFileResult: argument error, Abs error, gate refusal, open error, scan error, window text, read error or whole contents, in that order of checks; a file whose stream fails is a read error in whole-file mode |
| ReadFileTool.WindowStep | tool/read_file_handler.go:69-77 | consuming line k extends the window by that line exactly when k lies in [start, end] |
| ReadFileTool.WindowContents | tool/read_file_handler.go:61-71 | the window holds min(end, last)-start+1 lines (none when inverted or past the end), line j of it being file line start+j |
| ReadFileTool.OutsidePathRefusedBeforeIO | tool/read_file_handler.go:37-39 | a refused path gives the gate's error whatever the files hold |
| ReadFileTool.AbsentBoundsDefault | tool/read_file_handler.go:41-49 | an absent `from` acts as 0 and an absent `to` as -1 |
| ReadFileTool.WholeFileIff | tool/read_file_handler.go:51-89 | past the gate, the answer is the contents of every file that reads to its end iff from <= 0 and to < 0; in that mode a file whose stream fails gives the read error |
| ReadFileTool.DirectoryIsAnError | tool/read_file_handler.go:52-87 | a directory (opens, first read fails) is a scan error in window mode and a read error in whole-file mode, for every from/to |
| ReadFileTool.WindowedOutput | tool/read_file_handler.go:52-81 | in windowed mode an unopenable file is an open error; otherwise the answer is the lines of [max(from,0), to or maxInt64] joined by "\n", or the scan error when the scanner reaches the end of a failing stream |
| ReadFileTool.InvertedWindowIsEmpty | tool/read_file_handler.go:70-81 | 0 <= to < from gives the empty text, not an error, unless the stream fails before line `to` |
| ReadFileTool.LinesPastEndIgnored | tool/read_file_handler.go:73-80 | files agreeing on lines 0..end give the same answer, whatever follows and whether the stream fails afterwards |
| DirectoryTree.BuildTree | tool/directory_tree_handler.go:66-127 | the result is an admitted outcome of buildTree (IsOutcome) |
| DirectoryTree.BuildEntry | tool/directory_tree_handler.go:81-101 | one goroutine's send is an admitted send for its entry |
| DirectoryTree.Gather | tool/directory_tree_handler.go:109-126 | the select loop returns every sent entry (as a multiset) or one of the sent errors |
| DirectoryTree.Handle | tool/directory_tree_handler.go:30-64 | argument, Abs, gate, existence and is-directory checks in that order, then an admitted tree, with a tree failure wrapped |
| DirectoryTree.ChecksBeforeTraversal | tool/directory_tree_handler.go:41-56 | a refused path gets the gate's error, a file gets the not-a-directory error, and a tree or tree error only comes past all three checks |
| DirectoryTree.EmptyDirectory | tool/directory_tree_handler.go:72-118 | an empty readable directory has the empty sequence as its only outcome |
| DirectoryTree.UnreadableDirectory | tool/directory_tree_handler.go:67-70 | a failing listing has its error, with no entries, as its only outcome |
| DirectoryTree.EntryShape | tool/directory_tree_handler.go:84-100 | a file gives a "file" entry with no children, and a directory gives a "directory" entry whose children are an outcome of that subtree (or that subtree's error). The name is always the listed name |
| DirectoryTree.NamesAreChildren | tool/directory_tree_handler.go:79-101 | the multiset of returned names lies within the multiset of listed names |
| DirectoryTree.AllReadableSucceeds | tool/directory_tree_handler.go:79-118 | when every nested listing succeeds, every outcome succeeds and its names are a permutation of the listed names |
| DirectoryTree.FailedSendAbsent | tool/directory_tree_handler.go:92-118 | in any run where the goroutine of entry k sent an error, the result is an error or holds no entry with that name (distinct names) |
| DirectoryTree.FailedChildAbsent | tool/directory_tree_handler.go:92-118 | a child whose subtree can only fail is absent from every successful outcome (distinct names) |
| DirectoryTree.FailureMayBeReturnedOrLost | tool/directory_tree_handler.go:109-118 | for "a.txt" beside an unreadable "b", both b's error and a success listing only "a.txt" are outcomes |
| DirectoryTree.EitherOrderPossible | tool/directory_tree_handler.go:116-122 | for "a.txt" beside "b" holding "c.txt", both orders of the two entries are outcomes |
| CreateDirectory.Handle | tool/create_directory_handler.go:22-61 | the answer and the new filesystem are those of Create on the old filesystem |
| CreateDirectory.FileSystem.Stat | tool/create_directory_handler.go:39-43 | reports a stat failure, an existing path, or a missing one |
| CreateDirectory.FileSystem.Mkdir | tool/create_directory_handler.go:53 | succeeds iff the parent is a directory and the path is free, and then adds just the path |
| CreateDirectory.FileSystem.MkdirAll | tool/create_directory_handler.go:51 | succeeds iff no member of the parent chain is a file, and then adds the chain |
| CreateDirectory.ErrorsChangeNothing | tool/create_directory_handler.go:23-58 | every error answer leaves the filesystem unchanged |
| CreateDirectory.OutsidePathRefused | tool/create_directory_handler.go:35-37 | a refused path gives the gate's error and no change |
| CreateDirectory.CreateEffect | tool/create_directory_handler.go:39-60 | files and stat failures never change. Only free directories of the path's chain are added, each being the root, the path, or one of its parents. A success always says "Directory created: " + path and leaves the path existing |
| CreateDirectory.CreateKeepsWellFormed | tool/create_directory_handler.go:50-54 | the root stays and nothing becomes both a file and a directory |
| CreateDirectory.ExistingPathUnchanged | tool/create_directory_handler.go:39-40 | an existing path, directory or file, gives success and no change |
| CreateDirectory.Idempotent | tool/create_directory_handler.go:39-60 | repeating a successful call gives the same answer and changes nothing more |
| CreateDirectory.StatErrorRefused | tool/create_directory_handler.go:41-43 | a stat failure other than not-exist gives the check error and no change |
| CreateDirectory.RecursiveDefaultsToTrue | tool/create_directory_handler.go:45-48 | an absent or non-string `recursive` behaves exactly as "true" |
| CreateDirectory.OnlyExactTrueIsRecursive | tool/create_directory_handler.go:50-54 | with a missing parent, "TRUE" selects Mkdir and fails with no change, while "true" makes the whole chain |
| ListDirectory.Handle | tool/list_directory_handler.go:23-53 | the answer equals ListResult: argument error, Abs error, gate refusal, listing error, or the formatted lines joined by "\n" |
| ListDirectory.FormatEntry | tool/list_directory_handler.go:45-49 | no contract of its own; ParseFormat proves each formatted line reads back as its entry |
| ListDirectory.ParseFormat | tool/list_directory_handler.go:45-49 | a "[DIR] "/"[FILE] " line reads back as its entry's name and kind |
| ListDirectory.ListingRoundTrip | tool/list_directory_handler.go:43-52 | for newline-free names, an empty listing gives "" and only it does. Otherwise there is one line per entry, in listing order, each reading back as its entry |
| ListDirectory.OutsidePathRefused | tool/list_directory_handler.go:34-36 | a refused path gives the gate's error whatever the listings hold |
| ReadMultipleFiles.Handle | tool/read_multiple_files_handler.go:14-76 | the answer is an admitted outcome (MultiReadOutcome), whatever order the reads complete in; each segment comes from os.ReadFile, which fails on an unopenable file and on a failing stream |
| ReadMultipleFiles.MissingPathsRejected | tool/read_multiple_files_handler.go:15-18 | a missing or non-array `paths` has the argument error as its only outcome |
| ReadMultipleFiles.NonStringFailsCall | tool/read_multiple_files_handler.go:20-45 | with a non-string element, every outcome is an error naming some non-string index, and each such index may be named |
| ReadMultipleFiles.AllStringsSucceed | tool/read_multiple_files_handler.go:47-75 | with only strings, every outcome succeeds: one segment per path in input order, a success segment with the contents when os.ReadFile succeeds (the file opens and reads to its end), otherwise an error segment with the open or read error |
| ReadMultipleFiles.SegmentAtItsIndex | tool/read_multiple_files_handler.go:85-87 | segment k sits between the k-th and the (k+1)-th "\n---\n" |
| ReadMultipleFiles.EmptyListEmptyText | tool/read_multiple_files_handler.go:85-87 | an empty `paths` list gives "" |
| ReadMultipleFiles.DecodeSegmentRoundTrip | tool/read_multiple_files_handler.go:78-83 | a segment yields the file contents back exactly when os.ReadFile succeeded (opened and read to the end), and an error segment yields none |
| ReadMultipleFiles.StreamErrorSegment | tool/read_multiple_files_handler.go:59-62 | a file that opens but whose stream fails (a directory, say) gives the error segment "p: Error – read p: reason", which carries no contents |
| ReadMultipleFiles.FormatResult | tool/read_multiple_files_handler.go:78-83 | no contract of its own; its meaning, an error segment or "path:\ncontents\n" that reads back, is proved by DecodeSegmentRoundTrip |
| ReadMultipleFiles.JoinResults | tool/read_multiple_files_handler.go:85-87 | no contract of its own; SegmentAtItsIndex proves each segment sits between its neighbours' dividers, EmptyListEmptyText gives "" for no segments |
| ReadMultipleFiles.Segment | tool/read_multiple_files_handler.go:57-65 | no contract of its own; AllStringsSucceed, DecodeSegmentRoundTrip and StreamErrorSegment state which segment each read outcome gives |
| ReadMultipleFiles.ReadsOutsideAllowList | tool/read_multiple_files_handler.go:55-66 | as written: "/etc/passwd" is refused by the allow-list ["/allowed"] yet returned in full |
| ReadMultipleFiles.GatedSegment | tool/read_multiple_files_handler.go:55-66 | corrected segment: it begins with the given path |
| ReadMultipleFiles.GatedSegmentRefusesOutside | tool/read_multiple_files_handler.go:55-66 | corrected: a path Abs rejects or the gate refuses gives a segment independent of the files, never carrying file contents |
| ReadMultipleFiles.GatedSegmentAllowed | tool/read_multiple_files_handler.go:55-66 | corrected: an allowed clean absolute path gets the same segment as in the handler as written |

## Left out

- main.go is not part of this model. It parses flags, builds the server and registers tools; the handlers are modelled directly.
- Concurrency. Goroutines, channels, `sync.WaitGroup` and the mutex become sequential code. Their nondeterminism becomes relations (`IsOutcome`, `MultiReadOutcome`) and `:|` choices.
- Cancellation by `ctx.Done()` in `buildTree` is left out: the model has no context.
- JSON. `json.MarshalIndent` and the MCP result types are left out. directory_tree returns the tree value and the others return their text. The `omitempty` tag is also left out, so the model does not capture that an empty directory's children vanish from the JSON.
- Error texts. Handler errors are `Results.Error` constructors carrying the path or index, not Go's message strings. Only read_multiple_files puts error text into its output: `"open <path>: <reason>"` when the file cannot be opened, `"read <path>: <reason>"` when its stream fails.
- The float64 to int64 conversion. `from`/`to` arrive as integers, and the truncation of fractions and out-of-range values is not modelled.
- `bufio.Scanner` tokenising. The 64 KiB token limit and CR stripping are left out: a file's lines are given, with an optional stream error met after the last one. That error fails `os.ReadFile` as well as the scanner.
- ReadFileTool.ScanLines: does not model int64 overflow of `currentLine` (unbounded integers), which no finite file reaches.
- Operating-system detail. Permissions, symlinks, and errors inside `MkdirAll` other than a non-directory on the chain are left out. Stat failures are given as a set of paths for the handler's own check only.
- Windows volume names and separators; only '/' is modelled.
- The working directory is a parameter of `Abs`, not process state.

## Findings

| source | as written | input that shows it | evidently intended | confidence | as-written member | corrected member |
|---|---|---|---|---|---|---|
| tool/read_multiple_files_handler.go:55-66 | each path goes to `os.ReadFile` with no allow-list check; the handler has no configuration at all | `paths` = ["/etc/passwd"], allow-list ["/allowed"], a readable /etc/passwd: its contents are returned | the tool's description at main.go:75 says it only works within allowed directories, as every other handler enforces; each path should be resolved and checked, and a refused path should give an error segment without being read | not executed | ReadMultipleFiles.ReadsOutsideAllowList | ReadMultipleFiles.GatedSegment |

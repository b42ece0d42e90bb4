/** The read_file tool of tool/read_file_handler.go: the gate, the `from`/`to`
    defaults, the choice between the whole-file read and the line scan, and
    the scan that keeps the lines of a window and stops after its end. */
module ReadFileTool {
  import opened Results
  import opened Paths
  import opened Sandbox
  import opened Requests
  import opened Files
  import Strings

  /** `1<<63 - 1`, the open upper bound of the window. */
  const MaxInt64: int := 0x7fff_ffff_ffff_ffff

  /** The `from` argument, 0 when it is absent or not a number. */
  function FromLine(args: Arguments): int
  {
    match NumberArg(args, "from")
    case Some(n) => n
    case None => 0
  }

  /** The `to` argument, -1 when it is absent or not a number. */
  function ToLine(args: Arguments): int
  {
    match NumberArg(args, "to")
    case Some(n) => n
    case None => -1
  }

  /** The whole-file read is used unless a positive `from` or a
      non-negative `to` asks for a window. */
  predicate WantsWindow(fromLine: int, toLine: int)
  {
    fromLine > 0 || toLine >= 0
  }

  /** The clamped window bounds. */
  function WindowStart(fromLine: int): nat { if fromLine < 0 then 0 else fromLine }
  function WindowEnd(toLine: int): nat { if toLine < 0 then MaxInt64 else toLine }

  /** The lines whose index lies in `[start, end]`, in file order: a slice of
      `lines`, empty when the window lies past the end or is inverted. */
  function Window(lines: seq<string>, start: nat, end: nat): seq<string>
  {
    var lo := if start < |lines| then start else |lines|;
    var hi := if end + 1 < |lines| then end + 1 else |lines|;
    if lo <= hi then lines[lo..hi] else []
  }

  /** What the scan branch returns for an opened file: the scan stops right
      after line `end`, so the stream error behind the last line is only met
      when the window reaches past it. */
  function ScanResult(data: FileData, p: string, start: nat, end: nat): Result<string>
  {
    if data.streamError.Some? && end >= |data.lines| then Err(ScanFailed(p))
    else Ok(Strings.Join(Window(data.lines, start, end), "\n"))
  }

  /** The outcome `Handle` must produce, stated without the loop. */
  function ReadFileResult(cfg: Config, cwd: Option<string>, args: Arguments, store: Store): Result<string>
  {
    match StringArg(args, "path")
    case None => Err(InvalidArguments("read_file"))
    case Some(path) =>
      match Abs(path, cwd)
      case Err(e) => Err(e)
      case Ok(absPath) =>
        if !IsPathAllowed(cfg, absPath) then Err(OutsideAllowed(absPath))
        else if WantsWindow(FromLine(args), ToLine(args)) then
          if !CanOpen(store, absPath) then Err(OpenFailed(absPath))
          else ScanResult(store[absPath].data, absPath, WindowStart(FromLine(args)), WindowEnd(ToLine(args)))
        else ReadFile(store, absPath)
  }

  /** Keeping line `k` extends the window of the first `k` lines by that line
      exactly when `k` lies in `[start, end]`. */
  lemma WindowStep(lines: seq<string>, k: nat, start: nat, end: nat)
    requires k < |lines| && k <= end
    ensures Window(lines[..k + 1], start, end) ==
            Window(lines[..k], start, end) + (if start <= k then [lines[k]] else [])
  {
    var a, b := lines[..k], lines[..k + 1];
    if start <= k {
      assert Window(b, start, end) == b[start..k + 1];
      assert b[start..k + 1] == a[start..k] + [lines[k]];
    }
  }

  /** The `scanner.Scan()` loop: keeps the lines whose index lies in
      `[start, end]` and leaves by `break` as soon as line `end` has been
      read. `stopped` tells whether it left that way, before the scanner
      reached the end of the stream (where a stream error would surface). */
  method ScanLines(fileLines: seq<string>, start: nat, end: nat) returns (lines: seq<string>, stopped: bool)
    ensures lines == Window(fileLines, start, end)
    ensures stopped <==> end < |fileLines|
  {
    lines := [];
    var currentLine := 0;
    stopped := false;
    while currentLine < |fileLines|
      invariant 0 <= currentLine <= |fileLines| && currentLine <= end && !stopped
      invariant lines == Window(fileLines[..currentLine], start, end)
      decreases |fileLines| - currentLine
    {
      WindowStep(fileLines, currentLine, start, end);
      if currentLine >= start && currentLine <= end {
        lines := lines + [fileLines[currentLine]];
      }
      currentLine := currentLine + 1;
      if currentLine > end {
        stopped := true;
        break;
      }
    }
    if !stopped {
      assert fileLines[..currentLine] == fileLines;
    }
  }

  /** `ReadFileHandler.Handle`, with the scanner as a cursor over the file's
      lines. */
  method Handle(cfg: Config, cwd: Option<string>, args: Arguments, store: Store) returns (r: Result<string>)
    ensures r == ReadFileResult(cfg, cwd, args, store)
  {
    var path := StringArg(args, "path");
    if path.None? {
      return Err(InvalidArguments("read_file"));
    }
    var absPath := Abs(path.value, cwd);
    if absPath.Err? {
      return Err(absPath.error);
    }
    var p := absPath.value;
    if !IsPathAllowed(cfg, p) {
      return Err(OutsideAllowed(p));
    }

    var fromLine, toLine := 0, -1;
    var from := NumberArg(args, "from");
    if from.Some? {
      fromLine := from.value;
    }
    var to := NumberArg(args, "to");
    if to.Some? {
      toLine := to.value;
    }

    if fromLine > 0 || toLine >= 0 {
      if !CanOpen(store, p) {
        return Err(OpenFailed(p));
      }
      var data := store[p].data;
      var start, end := fromLine, toLine;
      if start < 0 {
        start := 0;
      }
      if end < 0 {
        end := MaxInt64;
      }
      var lines, stopped := ScanLines(data.lines, start, end);
      if !stopped && data.streamError.Some? {
        return Err(ScanFailed(p));
      }
      return Ok(Strings.Join(lines, "\n"));
    }

    var content := ReadFile(store, p);
    return content;
  }

  /** The window holds, in order, the lines whose index lies in
      `[start, end]`: as many as that range meets the file, starting at
      line `start`. */
  lemma WindowContents(lines: seq<string>, start: nat, end: nat)
    ensures var w := Window(lines, start, end);
            |w| == (if start <= end && start < |lines| then (if end < |lines| then end else |lines| - 1) - start + 1 else 0) &&
            forall j :: 0 <= j < |w| ==> start + j < |lines| && w[j] == lines[start + j]
  {
  }

  /** A path outside the allow-list is refused before any file is opened or
      read: the result is the same whatever the files hold. */
  lemma OutsidePathRefusedBeforeIO(cfg: Config, cwd: Option<string>, args: Arguments, store: Store, other: Store)
    requires StringArg(args, "path").Some?
    requires var a := Abs(StringArg(args, "path").value, cwd); a.Ok? && !IsPathAllowed(cfg, a.value)
    ensures ReadFileResult(cfg, cwd, args, store) == ReadFileResult(cfg, cwd, args, other)
    ensures ReadFileResult(cfg, cwd, args, store) == Err(OutsideAllowed(Abs(StringArg(args, "path").value, cwd).value))
  {
  }

  /** An absent `from` reads as 0 and an absent `to` as -1. */
  lemma AbsentBoundsDefault(cfg: Config, cwd: Option<string>, args: Arguments, store: Store)
    ensures ReadFileResult(cfg, cwd, args - {"from"}, store) == ReadFileResult(cfg, cwd, args["from" := Number(0)], store) ||
            StringArg(args, "path").None?
    ensures ReadFileResult(cfg, cwd, args - {"to"}, store) == ReadFileResult(cfg, cwd, args["to" := Number(-1)], store) ||
            StringArg(args, "path").None?
  {
    if StringArg(args, "path").Some? {
      assert StringArg(args - {"from"}, "path") == StringArg(args["from" := Number(0)], "path");
      assert FromLine(args - {"from"}) == FromLine(args["from" := Number(0)]) == 0;
      assert ToLine(args - {"from"}) == ToLine(args["from" := Number(0)]);
      assert StringArg(args - {"to"}, "path") == StringArg(args["to" := Number(-1)], "path");
      assert ToLine(args - {"to"}) == ToLine(args["to" := Number(-1)]) == -1;
      assert FromLine(args - {"to"}) == FromLine(args["to" := Number(-1)]);
    }
  }

  /** Past the gate, the result is the contents of every file that reads to
      its end, whatever its lines, if and only if `from <= 0` and `to < 0`;
      in that mode a file whose stream fails is a read error. */
  lemma WholeFileIff(cfg: Config, cwd: Option<string>, args: Arguments, store: Store, p: string)
    requires StringArg(args, "path").Some? && Abs(StringArg(args, "path").value, cwd) == Ok(p)
    requires IsPathAllowed(cfg, p)
    ensures (forall data: FileData :: data.streamError.None? ==>
               ReadFileResult(cfg, cwd, args, store[p := Readable(data)]) == Ok(data.contents)) <==>
            (FromLine(args) <= 0 && ToLine(args) < 0)
    ensures FromLine(args) <= 0 && ToLine(args) < 0 ==>
              forall data: FileData :: data.streamError.Some? ==>
                ReadFileResult(cfg, cwd, args, store[p := Readable(data)]) == Err(ReadFailed(p))
  {
    if WantsWindow(FromLine(args), ToLine(args)) {
      var data := FileData("x", [], None);
      assert Window([], WindowStart(FromLine(args)), WindowEnd(ToLine(args))) == [];
      assert ReadFileResult(cfg, cwd, args, store[p := Readable(data)]) == Ok("");
    }
  }

  /** In windowed mode an opened file yields the lines of
      `[max(from, 0), to]` (`to < 0` meaning no bound) joined by "\n", or the
      scanner's error and no text. */
  lemma WindowedOutput(cfg: Config, cwd: Option<string>, args: Arguments, store: Store, p: string)
    requires StringArg(args, "path").Some? && Abs(StringArg(args, "path").value, cwd) == Ok(p)
    requires IsPathAllowed(cfg, p) && WantsWindow(FromLine(args), ToLine(args))
    ensures !CanOpen(store, p) ==> ReadFileResult(cfg, cwd, args, store) == Err(OpenFailed(p))
    ensures CanOpen(store, p) ==>
              var data := store[p].data;
              var start := if FromLine(args) < 0 then 0 else FromLine(args);
              var end := if ToLine(args) < 0 then MaxInt64 else ToLine(args);
              ReadFileResult(cfg, cwd, args, store) ==
                if data.streamError.Some? && end >= |data.lines| then Err(ScanFailed(p))
                else Ok(Strings.Join(Window(data.lines, start, end), "\n"))
  {
  }

  /** An inverted window `0 <= to < from` gives the empty text, not an error,
      unless the scanner meets a stream error first. */
  lemma InvertedWindowIsEmpty(cfg: Config, cwd: Option<string>, args: Arguments, store: Store, p: string)
    requires StringArg(args, "path").Some? && Abs(StringArg(args, "path").value, cwd) == Ok(p)
    requires IsPathAllowed(cfg, p) && CanOpen(store, p)
    requires 0 <= ToLine(args) < FromLine(args)
    requires store[p].data.streamError.None? || ToLine(args) < |store[p].data.lines|
    ensures ReadFileResult(cfg, cwd, args, store) == Ok("")
  {
  }

  /** Early termination: the lines after index `end` are never looked at;
      two files that agree on their first `end + 1` lines give the same
      window, whatever follows and whether a stream error follows. */
  lemma LinesPastEndIgnored(d1: FileData, d2: FileData, p: string, start: nat, end: nat)
    requires |d1.lines| > end && |d2.lines| > end
    requires d1.lines[..end + 1] == d2.lines[..end + 1]
    ensures ScanResult(d1, p, start, end) == ScanResult(d2, p, start, end)
  {
    var w1, w2 := Window(d1.lines, start, end), Window(d2.lines, start, end);
    if start <= end {
      assert w1 == d1.lines[..end + 1][start..];
      assert w2 == d2.lines[..end + 1][start..];
    }
  }

  /** A directory opens but cannot be read: past the gate it is an error in
      both modes, whatever `from` and `to` say. */
  lemma DirectoryIsAnError(cfg: Config, cwd: Option<string>, args: Arguments, store: Store, p: string)
    requires StringArg(args, "path").Some? && Abs(StringArg(args, "path").value, cwd) == Ok(p)
    requires IsPathAllowed(cfg, p)
    requires p in store && store[p] == Readable(FileData("", [], Some("is a directory")))
    ensures ReadFileResult(cfg, cwd, args, store) ==
            if WantsWindow(FromLine(args), ToLine(args)) then Err(ScanFailed(p)) else Err(ReadFailed(p))
  {
  }
}

/** The read_multiple_files tool of tool/read_multiple_files_handler.go: every
    element of `paths` must be a string; each path is read independently and
    gives one formatted segment at its own index; the segments are joined by
    "\n---\n". The handler takes no configuration and reads every path as it
    is given. */
module ReadMultipleFiles {
  import opened Results
  import opened Sandbox
  import opened Requests
  import opened Files
  import Paths
  import Strings

  const Divider: string := "\n---\n"

  /** `formatResult`: an error segment when there is an error message,
      otherwise the path, a newline and the contents. */
  function FormatResult(path: string, errMsg: string, content: string): string
  {
    if errMsg != "" then path + ": Error – " + errMsg + "\n"
    else path + ":\n" + content + "\n"
  }

  /** `joinResults`. */
  function JoinResults(results: seq<string>): string
  {
    Strings.Join(results, Divider)
  }

  /** One goroutine of the reading loop: `os.ReadFile(p)` and its formatted
      outcome. */
  function Segment(store: Store, p: string): string
  {
    match ReadFile(store, p)
    case Ok(content) => FormatResult(p, "", content)
    case Err(_) => FormatResult(p, ReadErrorMessage(store, p), "")
  }

  /** The segments of a list of paths, index by index. */
  function Segments(store: Store, paths: seq<string>): seq<string>
  {
    seq(|paths|, i requires 0 <= i < |paths| => Segment(store, paths[i]))
  }

  /** The possible answers of the handler. Which bad index is named when
      several elements are not strings depends on which goroutine's error
      reaches the channel first, so any of them is admitted. */
  ghost predicate MultiReadOutcome(args: Arguments, store: Store, r: Result<string>)
  {
    match ArrayArg(args, "paths")
    case None => r == Err(InvalidArguments("read_multiple_files"))
    case Some(items) =>
      if exists i :: 0 <= i < |items| && !items[i].Str? then
        exists i :: 0 <= i < |items| && !items[i].Str? && r == Err(NotAString(i))
      else
        r == Ok(JoinResults(Segments(store, seq(|items|, i requires 0 <= i < |items| => items[i].s))))
  }

  /** `ReadMultipleFilesHandler`. The casting goroutines write `paths` by
      index and report bad elements; the reading goroutines finish in any
      order, and each result is stored at its own index. */
  method Handle(args: Arguments, store: Store) returns (r: Result<string>)
    ensures MultiReadOutcome(args, store, r)
  {
    var pathsInterface := ArrayArg(args, "paths");
    if pathsInterface.None? {
      return Err(InvalidArguments("read_multiple_files"));
    }
    var items := pathsInterface.value;
    var n := |items|;

    var paths := new string[n];
    var bad: set<nat> := {};
    for i := 0 to n
      invariant forall j :: 0 <= j < i && items[j].Str? ==> paths[j] == items[j].s
      invariant forall j :: j in bad <==> 0 <= j < i && !items[j].Str?
    {
      if items[i].Str? {
        paths[i] := items[i].s;
      } else {
        bad := bad + {i};
      }
    }
    if bad != {} {
      var index :| index in bad;
      return Err(NotAString(index));
    }
    assert forall j :: 0 <= j < n ==> items[j].Str? by {
      forall j | 0 <= j < n
        ensures items[j].Str?
      {
        assert j !in bad;
      }
    }

    var results := new string[n];
    var pending: set<int> := {};
    for i := 0 to n
      invariant forall j :: j in pending <==> 0 <= j < i
    {
      pending := pending + {i};
    }
    while pending != {}
      invariant forall j :: j in pending ==> 0 <= j < n
      invariant forall j :: 0 <= j < n && j !in pending ==> results[j] == Segment(store, paths[j])
      invariant forall j :: 0 <= j < n ==> paths[j] == items[j].s
      decreases |pending|
    {
      var k :| k in pending;
      results[k] := Segment(store, paths[k]);
      pending := pending - {k};
    }
    assert results[..] == Segments(store, seq(n, i requires 0 <= i < n => items[i].s));
    return Ok(JoinResults(results[..]));
  }

  /** A missing or non-array `paths` is an error. */
  lemma MissingPathsRejected(args: Arguments, store: Store, r: Result<string>)
    requires ArrayArg(args, "paths").None?
    ensures MultiReadOutcome(args, store, r) <==> r == Err(InvalidArguments("read_multiple_files"))
  {
  }

  /** One non-string element fails the whole call, naming some bad index;
      every bad index may be the one named. */
  lemma NonStringFailsCall(args: Arguments, store: Store, k: nat)
    requires ArrayArg(args, "paths").Some?
    requires k < |ArrayArg(args, "paths").value| && !ArrayArg(args, "paths").value[k].Str?
    ensures MultiReadOutcome(args, store, Err(NotAString(k)))
    ensures forall r :: MultiReadOutcome(args, store, r) ==>
              r.Err? && r.error.NotAString? && r.error.index < |ArrayArg(args, "paths").value| &&
              !ArrayArg(args, "paths").value[r.error.index].Str?
  {
  }

  /** With only strings, every outcome is a success whatever the reads do:
      one segment per path, in input order, a failed read giving an error
      segment beside the others. */
  lemma AllStringsSucceed(args: Arguments, store: Store, r: Result<string>)
    requires ArrayArg(args, "paths").Some?
    requires var items := ArrayArg(args, "paths").value; forall i :: 0 <= i < |items| ==> items[i].Str?
    requires MultiReadOutcome(args, store, r)
    ensures var items := ArrayArg(args, "paths").value;
            var segs := Segments(store, seq(|items|, i requires 0 <= i < |items| => items[i].s));
            r.Ok? && r.value == JoinResults(segs) && |segs| == |items| &&
            forall i :: 0 <= i < |items| ==>
              segs[i] == if CanReadFile(store, items[i].s)
                         then items[i].s + ":\n" + store[items[i].s].data.contents + "\n"
                         else items[i].s + ": Error – " + ReadErrorMessage(store, items[i].s) + "\n"
  {
  }

  /** Segment `k` sits between the `k`-th and the `k+1`-th divider. */
  lemma SegmentAtItsIndex(store: Store, paths: seq<string>, k: nat)
    requires k < |paths|
    ensures var segs := Segments(store, paths);
            JoinResults(segs) ==
              (if k == 0 then "" else JoinResults(segs[..k]) + Divider) +
              segs[k] +
              (if k == |paths| - 1 then "" else Divider + JoinResults(segs[k + 1..]))
  {
    Strings.JoinAround(Segments(store, paths), k, Divider);
  }

  /** An empty list gives the empty text. */
  lemma EmptyListEmptyText(args: Arguments, store: Store)
    requires ArrayArg(args, "paths") == Some([])
    ensures MultiReadOutcome(args, store, Ok(""))
  {
    assert Segments(store, seq(0, i requires 0 <= i < 0 => "")) == [];
  }

  /** Reading a segment back for a known path: a success segment gives the
      contents, an error segment gives none. */
  function DecodeSegment(path: string, seg: string): Option<string>
  {
    if |seg| >= |path| + 3 && seg[..|path| + 2] == path + ":\n" && seg[|seg| - 1] == '\n'
    then Some(seg[|path| + 2..|seg| - 1])
    else None
  }

  /** Round trip: the segment holds the file's contents exactly when the read
      succeeded, and tells a failed read apart from any contents. */
  lemma DecodeSegmentRoundTrip(store: Store, p: string)
    ensures DecodeSegment(p, Segment(store, p)) ==
            (if CanReadFile(store, p) then Some(store[p].data.contents) else None)
  {
    var seg := Segment(store, p);
    if CanReadFile(store, p) {
      var c := store[p].data.contents;
      assert seg == p + ":\n" + c + "\n";
      assert seg[..|p| + 2] == p + ":\n";
      assert seg[|p| + 2..|seg| - 1] == c;
    } else {
      var msg := ReadErrorMessage(store, p);
      assert seg == p + ": Error – " + msg + "\n";
      assert seg[|p| + 1] == ' ';
      assert (p + ":\n")[|p| + 1] == '\n';
    }
  }

  /** The segment of a readable file. */
  lemma ReadableSegment(store: Store, p: string)
    requires CanReadFile(store, p)
    ensures Segment(store, p) == p + ":\n" + store[p].data.contents + "\n"
  {
  }

  /** A file that opens but whose stream fails, a directory for one, gives
      an error segment carrying the `read` error, and no contents. */
  lemma StreamErrorSegment(store: Store, p: string)
    requires CanOpen(store, p) && store[p].data.streamError.Some?
    ensures Segment(store, p) == p + ": Error – read " + p + ": " + store[p].data.streamError.value + "\n"
    ensures DecodeSegment(p, Segment(store, p)).None?
  {
    var msg := "read " + p + ": " + store[p].data.streamError.value;
    assert ReadFile(store, p).Err? && ReadErrorMessage(store, p) == msg;
    assert msg != "" by { assert msg[0] == 'r'; }
    assert Segment(store, p) == FormatResult(p, msg, "");
    DecodeSegmentRoundTrip(store, p);
  }

  /** "/etc/passwd" lies outside an allow-list holding only "/allowed". */
  lemma EtcPasswdRefused()
    ensures !IsPathAllowed(Config(["/allowed"]), "/etc/passwd")
  {
    EtcPasswdIsClean();
    NotAtBoundaryRefused("/allowed", "/etc/passwd");
  }

  lemma EtcPasswdIsClean()
    ensures Paths.Clean("/etc/passwd") == "/etc/passwd"
  {
    assert Paths.IsPlainSegment("etc") && Paths.IsPlainSegment("passwd");
    Paths.CleanTwoPlain("etc", "passwd");
    assert [Paths.Separator] + "etc" + [Paths.Separator] + "passwd" == "/etc/passwd";
  }

  /** A single string element gives its own segment alone. */
  lemma SinglePathOutcome(args: Arguments, store: Store, p: string)
    requires ArrayArg(args, "paths") == Some([Str(p)])
    ensures MultiReadOutcome(args, store, Ok(Segment(store, p)))
  {
    var items := [Str(p)];
    assert forall i :: 0 <= i < |items| ==> items[i].Str?;
    var paths := seq(|items|, i requires 0 <= i < |items| => items[i].s);
    assert paths == [p];
    assert JoinResults(Segments(store, paths)) == Segment(store, p);
  }

  /** The handler as written does not consult the allow-list: with only
      "/allowed" allowed, a readable "/etc/passwd" is returned in full. */
  lemma ReadsOutsideAllowList(store: Store, args: Arguments, contents: string)
    requires args == map["paths" := Array([Str("/etc/passwd")])]
    requires store == map["/etc/passwd" := Readable(FileData(contents, [], None))]
    ensures !IsPathAllowed(Config(["/allowed"]), "/etc/passwd")
    ensures MultiReadOutcome(args, store, Ok("/etc/passwd" + ":\n" + contents + "\n"))
  {
    EtcPasswdRefused();
    var p := "/etc/passwd";
    assert ArrayArg(args, "paths") == Some([Str(p)]);
    SinglePathOutcome(args, store, p);
    assert CanReadFile(store, p) && store[p].data.contents == contents;
    ReadableSegment(store, p);
  }

  /** The segment the tool description promises ("only works within allowed
      directories"): each path is resolved and checked against the
      allow-list like in the other handlers, and a refused path gives an
      error segment without being read. */
  function GatedSegment(cfg: Config, cwd: Option<string>, store: Store, p: string): (seg: string)
    ensures |p| <= |seg| && seg[..|p|] == p
  {
    match Paths.Abs(p, cwd)
    case Err(_) => FormatResult(p, "invalid path", "")
    case Ok(absPath) =>
      if !IsPathAllowed(cfg, absPath) then FormatResult(p, "path " + absPath + " is outside of allowed directories", "")
      else match ReadFile(store, absPath)
        case Ok(content) => FormatResult(p, "", content)
        case Err(_) => FormatResult(p, ReadErrorMessage(store, absPath), "")
  }

  /** With the gate, a refused path never yields file contents and its
      segment does not depend on what the files hold. */
  lemma GatedSegmentRefusesOutside(cfg: Config, cwd: Option<string>, store: Store, other: Store, p: string)
    requires Paths.Abs(p, cwd).Err? || !IsPathAllowed(cfg, Paths.Abs(p, cwd).value)
    ensures GatedSegment(cfg, cwd, store, p) == GatedSegment(cfg, cwd, other, p)
    ensures DecodeSegment(p, GatedSegment(cfg, cwd, store, p)).None?
  {
    var seg := GatedSegment(cfg, cwd, store, p);
    assert seg[|p| + 1] == ' ';
    assert (p + ":\n")[|p| + 1] == '\n';
  }

  /** Past the gate, the gated segment is the segment of the resolved path,
      as the handler as written gives it. */
  lemma GatedSegmentAllowed(cfg: Config, cwd: Option<string>, store: Store, p: string)
    requires Paths.Abs(p, cwd).Ok? && IsPathAllowed(cfg, Paths.Abs(p, cwd).value)
    requires Paths.Abs(p, cwd).value == p
    ensures GatedSegment(cfg, cwd, store, p) == Segment(store, p)
  {
  }
}

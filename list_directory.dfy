/** The list_directory tool of tool/list_directory_handler.go: the gate, the
    listing, and one "[DIR] name" or "[FILE] name" line per entry. */
module ListDirectory {
  import opened Results
  import opened Paths
  import opened Sandbox
  import opened Requests
  import Strings

  /** One `os.DirEntry`: its name and whether it is a directory. */
  datatype DirEntry = DirEntry(name: string, isDir: bool)

  /** The listings `os.ReadDir` returns, by absolute path; a path that is
      not a key cannot be listed. */
  type Listings = map<string, seq<DirEntry>>

  const NewLine: char := '\n'

  /** `fmt.Sprintf("%s %s", prefix, entry.Name())`. */
  function FormatEntry(e: DirEntry): string
  {
    (if e.isDir then "[DIR]" else "[FILE]") + " " + e.name
  }

  /** Reading a line back: the inverse of `FormatEntry`. */
  function ParseEntry(line: string): Option<DirEntry>
  {
    if "[DIR] " <= line then Some(DirEntry(line[6..], true))
    else if "[FILE] " <= line then Some(DirEntry(line[7..], false))
    else None
  }

  /** The formatted lines of a listing, in listing order. */
  function FormatAll(entries: seq<DirEntry>): seq<string>
  {
    seq(|entries|, i requires 0 <= i < |entries| => FormatEntry(entries[i]))
  }

  /** The answer `Handle` must produce. */
  function ListResult(cfg: Config, cwd: Option<string>, args: Arguments, listings: Listings): Result<string>
  {
    match StringArg(args, "path")
    case None => Err(InvalidArguments("list_directory"))
    case Some(path) =>
      match Abs(path, cwd)
      case Err(e) => Err(e)
      case Ok(p) =>
        if !IsPathAllowed(cfg, p) then Err(OutsideAllowed(p))
        else if p !in listings then Err(ReadDirFailed(p))
        else Ok(Strings.Join(FormatAll(listings[p]), [NewLine]))
  }

  /** `ListDirectoryHandler.Handle`. */
  method Handle(cfg: Config, cwd: Option<string>, args: Arguments, listings: Listings) returns (r: Result<string>)
    ensures r == ListResult(cfg, cwd, args, listings)
  {
    var path := StringArg(args, "path");
    if path.None? {
      return Err(InvalidArguments("list_directory"));
    }
    var absPath := Abs(path.value, cwd);
    if absPath.Err? {
      return Err(absPath.error);
    }
    var p := absPath.value;
    if !IsPathAllowed(cfg, p) {
      return Err(OutsideAllowed(p));
    }
    if p !in listings {
      return Err(ReadDirFailed(p));
    }
    var entries := listings[p];
    var formattedEntries: seq<string> := [];
    for i := 0 to |entries|
      invariant formattedEntries == FormatAll(entries[..i])
    {
      var prefix := "[FILE]";
      if entries[i].isDir {
        prefix := "[DIR]";
      }
      formattedEntries := formattedEntries + [prefix + " " + entries[i].name];
    }
    assert entries[..|entries|] == entries;
    return Ok(Strings.Join(formattedEntries, [NewLine]));
  }

  /** Round trip of one line: the line names the entry and its kind. */
  lemma ParseFormat(e: DirEntry)
    ensures ParseEntry(FormatEntry(e)) == Some(e)
  {
    var line := FormatEntry(e);
    if e.isDir {
      assert "[DIR] " <= line && line[6..] == e.name;
    } else {
      assert !("[DIR] " <= line) by { assert line[1] == 'F'; }
      assert "[FILE] " <= line && line[7..] == e.name;
    }
  }

  /** Reading a whole answer back: the empty text is the empty listing;
      otherwise one line per "\n", each parsed back. */
  function ParseListing(text: string): seq<Option<DirEntry>>
  {
    if text == "" then []
    else
      var lines := Strings.Split(text, NewLine);
      seq(|lines|, i requires 0 <= i < |lines| => ParseEntry(lines[i]))
  }

  /** When no name contains a newline, the answer has exactly one line per
      entry, in listing order, and each line reads back as its entry; an
      empty directory gives "". */
  lemma ListingRoundTrip(entries: seq<DirEntry>)
    requires forall i :: 0 <= i < |entries| ==> Strings.NoChar(entries[i].name, NewLine)
    ensures var text := Strings.Join(FormatAll(entries), [NewLine]);
            (text == "" <==> entries == []) &&
            |ParseListing(text)| == |entries| &&
            forall i :: 0 <= i < |entries| ==> ParseListing(text)[i] == Some(entries[i])
  {
    var lines := FormatAll(entries);
    var text := Strings.Join(lines, [NewLine]);
    if entries != [] {
      assert |lines[0]| > 0;
      assert |text| > 0 by { JoinHead(lines, [NewLine]); }
      forall i | 0 <= i < |lines|
        ensures Strings.NoChar(lines[i], NewLine)
      {
        assert lines[i] == (if entries[i].isDir then "[DIR]" else "[FILE]") + " " + entries[i].name;
      }
      Strings.SplitJoin(lines, NewLine);
      forall i | 0 <= i < |entries|
        ensures ParseListing(text)[i] == Some(entries[i])
      {
        ParseFormat(entries[i]);
      }
    }
  }

  /** A join starts with its first part. */
  lemma JoinHead(parts: seq<string>, sep: string)
    requires parts != []
    ensures parts[0] <= Strings.Join(parts, sep)
  {
  }

  /** A path outside the allow-list is refused before the directory is
      read: the answer is the same whatever the listings hold. */
  lemma OutsidePathRefused(cfg: Config, cwd: Option<string>, args: Arguments, listings: Listings, other: Listings, p: string)
    requires StringArg(args, "path").Some? && Abs(StringArg(args, "path").value, cwd) == Ok(p)
    requires !IsPathAllowed(cfg, p)
    ensures ListResult(cfg, cwd, args, listings) == ListResult(cfg, cwd, args, other) == Err(OutsideAllowed(p))
  {
  }
}

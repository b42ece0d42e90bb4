/** The create_directory tool of tool/create_directory_handler.go over an
    in-memory filesystem: the gate, the existence check that answers success
    without touching anything, and the `recursive` flag that chooses between
    `os.MkdirAll` and `os.Mkdir`. */
module CreateDirectory {
  import opened Results
  import opened Paths
  import opened Sandbox
  import opened Requests

  /** A snapshot of the filesystem: the existing directories, the existing
      non-directories, and the paths whose `os.Stat` fails with an error
      other than "does not exist". Besides a permission error, that includes
      every path below a non-directory, where Unix reports ENOTDIR: such a
      path belongs in `statErrors`, since a path in none of the three sets
      is taken not to exist. */
  datatype Disk = Disk(dirs: set<string>, files: set<string>, statErrors: set<string>)

  /** The root always exists, and nothing is both a directory and a file. */
  predicate WellFormed(d: Disk)
  {
    [Separator] in d.dirs && d.dirs !! d.files
  }

  /** What `os.Stat` reports. */
  datatype StatResult = Found | NotExist | StatError

  function StatOf(d: Disk, p: string): StatResult
  {
    if p in d.statErrors then StatError
    else if p in d.dirs || p in d.files then Found
    else NotExist
  }

  /** `os.Mkdir` succeeds when the parent is a directory and the path is
      free. */
  predicate CanMkdir(d: Disk, p: string)
  {
    Parent(p) in d.dirs && p !in d.dirs && p !in d.files
  }

  /** `os.MkdirAll` succeeds unless the path or one of its parents is a
      non-directory. */
  predicate CanMkdirAll(d: Disk, p: string)
  {
    Chain(p) !! d.files
  }

  /** The text of both success answers. */
  function CreatedMessage(p: string): string
  {
    "Directory created: " + p
  }

  /** The `recursive` argument, "true" when it is absent or not a string. */
  function RecursiveFlag(args: Arguments): string
  {
    match StringArg(args, "recursive")
    case Some(v) => v
    case None => "true"
  }

  /** The answer and the new filesystem `Handle` must produce. */
  function Create(cfg: Config, cwd: Option<string>, args: Arguments, d: Disk): (Result<string>, Disk)
  {
    match StringArg(args, "path")
    case None => (Err(InvalidArguments("create_directory")), d)
    case Some(path) =>
      match Abs(path, cwd)
      case Err(e) => (Err(e), d)
      case Ok(p) =>
        if !IsPathAllowed(cfg, p) then (Err(OutsideAllowed(p)), d)
        else if StatOf(d, p) == StatError then (Err(CheckFailed(p)), d)
        else if StatOf(d, p) == Found then (Ok(CreatedMessage(p)), d)
        else if RecursiveFlag(args) == "true" then
          if CanMkdirAll(d, p) then (Ok(CreatedMessage(p)), d.(dirs := d.dirs + Chain(p)))
          else (Err(CreateFailed(p)), d)
        else if CanMkdir(d, p) then (Ok(CreatedMessage(p)), d.(dirs := d.dirs + {p}))
        else (Err(CreateFailed(p)), d)
  }

  /** The mutable filesystem the handler works on. */
  class FileSystem {
    var dirs: set<string>
    var files: set<string>
    const statErrors: set<string>

    function State(): Disk
      reads this
    {
      Disk(dirs, files, statErrors)
    }

    /** `os.Stat`. */
    method Stat(p: string) returns (s: StatResult)
      ensures s == StatOf(State(), p)
    {
      if p in statErrors {
        s := StatError;
      } else if p in dirs || p in files {
        s := Found;
      } else {
        s := NotExist;
      }
    }

    /** `os.Mkdir`: makes exactly `p`, or fails and changes nothing. */
    method Mkdir(p: string) returns (ok: bool)
      modifies this
      ensures ok == CanMkdir(old(State()), p)
      ensures dirs == (if ok then old(dirs) + {p} else old(dirs))
      ensures files == old(files)
    {
      ok := Parent(p) in dirs && p !in dirs && p !in files;
      if ok {
        dirs := dirs + {p};
      }
    }

    /** `os.MkdirAll`: makes `p` and every missing parent, or fails and
        changes nothing. */
    method MkdirAll(p: string) returns (ok: bool)
      modifies this
      ensures ok == CanMkdirAll(old(State()), p)
      ensures dirs == (if ok then old(dirs) + Chain(p) else old(dirs))
      ensures files == old(files)
    {
      ok := Chain(p) !! files;
      if ok {
        dirs := dirs + Chain(p);
      }
    }
  }

  /** `CreateDirectoryHandler.Handle`. */
  method Handle(cfg: Config, cwd: Option<string>, args: Arguments, fs: FileSystem) returns (r: Result<string>)
    modifies fs
    ensures (r, fs.State()) == Create(cfg, cwd, args, old(fs.State()))
  {
    var path := StringArg(args, "path");
    if path.None? {
      return Err(InvalidArguments("create_directory"));
    }
    var absPath := Abs(path.value, cwd);
    if absPath.Err? {
      return Err(absPath.error);
    }
    var p := absPath.value;
    if !IsPathAllowed(cfg, p) {
      return Err(OutsideAllowed(p));
    }

    var stat := fs.Stat(p);
    if stat == Found {
      return Ok(CreatedMessage(p));
    } else if stat == StatError {
      return Err(CheckFailed(p));
    }

    var recursive := "true";
    var recursiveVal := StringArg(args, "recursive");
    if recursiveVal.Some? {
      recursive := recursiveVal.value;
    }

    var ok;
    if recursive == "true" {
      ok := fs.MkdirAll(p);
    } else {
      ok := fs.Mkdir(p);
    }
    if !ok {
      return Err(CreateFailed(p));
    }
    return Ok(CreatedMessage(p));
  }

  /** A refused or unusable request changes nothing on disk. */
  lemma ErrorsChangeNothing(cfg: Config, cwd: Option<string>, args: Arguments, d: Disk)
    ensures Create(cfg, cwd, args, d).0.Err? ==> Create(cfg, cwd, args, d).1 == d
  {
  }

  /** A path outside the allow-list is refused whatever is on disk, and the
      disk is unchanged. */
  lemma OutsidePathRefused(cfg: Config, cwd: Option<string>, args: Arguments, d: Disk, p: string)
    requires StringArg(args, "path").Some? && Abs(StringArg(args, "path").value, cwd) == Ok(p)
    requires !IsPathAllowed(cfg, p)
    ensures Create(cfg, cwd, args, d) == (Err(OutsideAllowed(p)), d)
  {
  }

  /** Only directories are ever added, only the path and its parents, the
      added ones were free, and every success leaves the path existing with
      the same message. */
  lemma CreateEffect(cfg: Config, cwd: Option<string>, args: Arguments, d: Disk, p: string)
    requires StringArg(args, "path").Some? && Abs(StringArg(args, "path").value, cwd) == Ok(p)
    ensures var (r, d') := Create(cfg, cwd, args, d);
            d'.files == d.files && d'.statErrors == d.statErrors &&
            d.dirs <= d'.dirs && d'.dirs - d.dirs <= Chain(p) && (d'.dirs - d.dirs) !! d.files &&
            (r.Ok? ==> r == Ok(CreatedMessage(p)) && (p in d'.dirs || p in d'.files)) &&
            forall c :: c in d'.dirs - d.dirs ==> c == [Separator] || c == p || HasPrefix(p, c + [Separator])
  {
    ChainHasPath(p);
    var d' := Create(cfg, cwd, args, d).1;
    if !IsPathAllowed(cfg, p) || StatOf(d, p) != NotExist {
      assert d' == d;
    } else if RecursiveFlag(args) == "true" && CanMkdirAll(d, p) {
      assert d' == d.(dirs := d.dirs + Chain(p));
      ChainIsAncestry(p);
    } else if RecursiveFlag(args) != "true" && CanMkdir(d, p) {
      assert d' == d.(dirs := d.dirs + {p});
    } else {
      assert d' == d;
    }
  }

  /** On a well-formed disk the new disk is well formed. */
  lemma CreateKeepsWellFormed(cfg: Config, cwd: Option<string>, args: Arguments, d: Disk)
    requires WellFormed(d)
    ensures WellFormed(Create(cfg, cwd, args, d).1)
  {
  }

  /** When the path already exists, as a directory or as a file, the answer
      is success and nothing changes. */
  lemma ExistingPathUnchanged(cfg: Config, cwd: Option<string>, args: Arguments, d: Disk, p: string)
    requires StringArg(args, "path").Some? && Abs(StringArg(args, "path").value, cwd) == Ok(p)
    requires IsPathAllowed(cfg, p) && p !in d.statErrors && (p in d.dirs || p in d.files)
    ensures Create(cfg, cwd, args, d) == (Ok(CreatedMessage(p)), d)
  {
  }

  /** A second identical call after a success succeeds with the same answer
      and changes nothing more. */
  lemma Idempotent(cfg: Config, cwd: Option<string>, args: Arguments, d: Disk)
    requires Create(cfg, cwd, args, d).0.Ok?
    ensures var (r, d') := Create(cfg, cwd, args, d); Create(cfg, cwd, args, d') == (r, d')
  {
    var p := Abs(StringArg(args, "path").value, cwd).value;
    CreateEffect(cfg, cwd, args, d, p);
  }

  /** A stat failure other than "does not exist" is an error, and nothing is
      created. */
  lemma StatErrorRefused(cfg: Config, cwd: Option<string>, args: Arguments, d: Disk, p: string)
    requires StringArg(args, "path").Some? && Abs(StringArg(args, "path").value, cwd) == Ok(p)
    requires IsPathAllowed(cfg, p) && p in d.statErrors
    ensures Create(cfg, cwd, args, d) == (Err(CheckFailed(p)), d)
  {
  }

  /** An absent or non-string `recursive` behaves as "true". */
  lemma RecursiveDefaultsToTrue(cfg: Config, cwd: Option<string>, args: Arguments, d: Disk, v: Value)
    requires !v.Str?
    ensures Create(cfg, cwd, args - {"recursive"}, d) == Create(cfg, cwd, args["recursive" := Str("true")], d)
    ensures Create(cfg, cwd, args["recursive" := v], d) == Create(cfg, cwd, args["recursive" := Str("true")], d)
  {
    var a1, a2, a3 := args - {"recursive"}, args["recursive" := Str("true")], args["recursive" := v];
    assert StringArg(a1, "path") == StringArg(a2, "path") == StringArg(a3, "path");
    assert RecursiveFlag(a1) == RecursiveFlag(a2) == RecursiveFlag(a3) == "true";
  }

  /** Any string other than exactly "true", "TRUE" among them, selects
      `os.Mkdir`: with a missing parent the plain call fails and changes
      nothing, while "true" makes the whole chain. */
  lemma OnlyExactTrueIsRecursive(cfg: Config, cwd: Option<string>, args: Arguments, d: Disk, p: string)
    requires StringArg(args, "path").Some? && Abs(StringArg(args, "path").value, cwd) == Ok(p)
    requires IsPathAllowed(cfg, p) && StatOf(d, p) == NotExist
    requires Parent(p) !in d.dirs && CanMkdirAll(d, p)
    ensures Create(cfg, cwd, args["recursive" := Str("TRUE")], d) == (Err(CreateFailed(p)), d)
    ensures Create(cfg, cwd, args["recursive" := Str("true")], d) ==
            (Ok(CreatedMessage(p)), d.(dirs := d.dirs + Chain(p)))
  {
    var upper, lower := args["recursive" := Str("TRUE")], args["recursive" := Str("true")];
    assert StringArg(upper, "path") == StringArg(args, "path") == StringArg(lower, "path");
    assert RecursiveFlag(upper) == "TRUE" != "true";
    assert RecursiveFlag(lower) == "true";
  }
}

/** The sandbox of config/config.go: the allow-list built once at start-up by
    `NewConfig`, and the containment gate `IsPathAllowed` every handler that
    takes a configuration runs before touching the filesystem. */
module Sandbox {
  import opened Results
  import opened Paths
  import Strings

  /** `config.Config`: the cleaned absolute allowed directories, in the order
      they were given. It is never changed after `NewConfig`. */
  datatype Config = Config(allowedDirectories: seq<string>)

  /** One round of the loop in `IsPathAllowed`: the cleaned path is the entry
      itself, or starts with the entry followed by a separator. */
  predicate Admits(dir: string, cleanPath: string)
  {
    HasPrefix(cleanPath, dir + [Separator]) || cleanPath == dir
  }

  /** The loop over the allow-list with its early `return true`. */
  function AnyAdmits(dirs: seq<string>, cleanPath: string): (r: bool)
    ensures r <==> exists i :: 0 <= i < |dirs| && Admits(dirs[i], cleanPath)
    decreases |dirs|
  {
    if dirs == [] then false
    else if Admits(dirs[0], cleanPath) then true
    else
      var rest := AnyAdmits(dirs[1..], cleanPath);
      assert rest ==> exists i :: 0 <= i < |dirs| && Admits(dirs[i], cleanPath) by {
        if rest {
          var i :| 0 <= i < |dirs[1..]| && Admits(dirs[1..][i], cleanPath);
          assert Admits(dirs[i + 1], cleanPath);
        }
      }
      assert (exists i :: 0 <= i < |dirs| && Admits(dirs[i], cleanPath)) ==> rest by {
        if i :| 0 <= i < |dirs| && Admits(dirs[i], cleanPath) {
          assert i > 0 && Admits(dirs[1..][i - 1], cleanPath);
        }
      }
      rest
  }

  /** `Config.IsPathAllowed`: a relative path is refused outright; otherwise
      the cleaned path must equal an entry or lie below it. */
  function IsPathAllowed(c: Config, path: string): (r: bool)
    ensures r <==> IsAbs(path) &&
                   exists i :: 0 <= i < |c.allowedDirectories| &&
                     (Clean(path) == c.allowedDirectories[i] ||
                      HasPrefix(Clean(path), c.allowedDirectories[i] + [Separator]))
  {
    IsAbs(path) && AnyAdmits(c.allowedDirectories, Clean(path))
  }

  /** `NewConfig`: an empty list is refused; otherwise each entry is made
      absolute and cleaned into the same position of a new list, and the first
      entry that `filepath.Abs` cannot resolve aborts with an error. */
  method NewConfig(dirs: seq<string>, cwd: Option<string>) returns (r: Result<Config>)
    ensures |dirs| == 0 ==> r == Err(NoDirectories)
    ensures r.Ok? <==> |dirs| > 0 && forall i :: 0 <= i < |dirs| ==> Abs(dirs[i], cwd).Ok?
    ensures r.Ok? ==> |r.value.allowedDirectories| == |dirs| &&
                      forall i :: 0 <= i < |dirs| ==> r.value.allowedDirectories[i] == Clean(Abs(dirs[i], cwd).value)
    ensures r.Ok? && (cwd.Some? ==> IsAbs(cwd.value)) ==>
              forall i :: 0 <= i < |dirs| ==> IsCanonical(r.value.allowedDirectories[i])
    ensures r.Err? && |dirs| > 0 ==>
              exists i :: 0 <= i < |dirs| && r.error == InvalidDirectory(dirs[i]) && Abs(dirs[i], cwd).Err? &&
                          forall j :: 0 <= j < i ==> Abs(dirs[j], cwd).Ok?
  {
    if |dirs| == 0 {
      return Err(NoDirectories);
    }
    var cleanDirs := new string[|dirs|];
    for i := 0 to |dirs|
      invariant forall j :: 0 <= j < i ==> Abs(dirs[j], cwd).Ok? && cleanDirs[j] == Clean(Abs(dirs[j], cwd).value)
    {
      var absPath := Abs(dirs[i], cwd);
      if absPath.Err? {
        return Err(InvalidDirectory(dirs[i]));
      }
      cleanDirs[i] := Clean(absPath.value);
    }
    r := Ok(Config(cleanDirs[..]));
    forall i | 0 <= i < |dirs| && (cwd.Some? ==> IsAbs(cwd.value))
      ensures IsCanonical(r.value.allowedDirectories[i])
    {
      AbsIsAbsolute(dirs[i], cwd);
      CleanAbsolute(Abs(dirs[i], cwd).value);
    }
  }

  /** The separator rule is exactly segment containment: an entry admits a
      path iff the entry's '/'-separated pieces are a prefix of the path's.
      This is what keeps "/allowed-dirs" out of "/allowed". */
  lemma AdmitsIsSegmentPrefix(dir: string, cleanPath: string)
    ensures Admits(dir, cleanPath) <==> Strings.Split(dir, Separator) <= Strings.Split(cleanPath, Separator)
  {
    var d := Strings.Split(dir, Separator);
    var s := Strings.Split(cleanPath, Separator);
    if HasPrefix(cleanPath, dir + [Separator]) {
      var rest := cleanPath[|dir| + 1..];
      assert cleanPath == dir + [Separator] + rest;
      Strings.SplitConcat(dir, Separator, rest);
    }
    if d <= s {
      Strings.JoinSplit(dir, Separator);
      Strings.JoinSplit(cleanPath, Separator);
      if |d| == |s| {
        assert d == s;
      } else {
        var rest := s[|d|..];
        assert s == d + rest;
        Strings.JoinConcat(d, rest, [Separator]);
        assert cleanPath == dir + [Separator] + Strings.Join(rest, [Separator]);
      }
    }
  }

  /** A relative path is refused whatever the allow-list holds. */
  lemma RelativePathRejected(c: Config, path: string)
    requires !IsAbs(path)
    ensures !IsPathAllowed(c, path)
  {
  }

  /** An empty allow-list refuses every path. */
  lemma EmptyListRejectsAll(path: string)
    ensures !IsPathAllowed(Config([]), path)
  {
  }

  /** Adding entries never turns an allowed path into a refused one. */
  lemma AllowedIsMonotone(dirs: seq<string>, more: seq<string>, path: string)
    requires forall i :: 0 <= i < |dirs| ==> dirs[i] in more
    requires IsPathAllowed(Config(dirs), path)
    ensures IsPathAllowed(Config(more), path)
  {
    var i :| 0 <= i < |dirs| && Admits(dirs[i], Clean(path));
    var j :| 0 <= j < |more| && more[j] == dirs[i];
    assert Admits(more[j], Clean(path));
  }

  /** With the entry "/" the required prefix is "//", which no cleaned path
      has, so exactly the paths that clean to "/" are admitted. */
  lemma RootEntryAdmitsOnlyRoot(path: string)
    ensures IsPathAllowed(Config(["/"]), path) <==> IsAbs(path) && Clean(path) == "/"
  {
    if IsAbs(path) {
      CleanAbsolute(path);
      assert Admits("/", Clean(path)) <==> Clean(path) == "/";
    }
  }

  /** A one-entry allow-list admits exactly what its entry admits. */
  lemma SingleEntryGate(dir: string, path: string)
    ensures IsPathAllowed(Config([dir]), path) <==> IsAbs(path) && Admits(dir, Clean(path))
  {
  }

  /** The segment boundary on concrete paths: with only "/allowed" in the
      list, the entry itself and "/allowed/f" are admitted. */
  lemma SegmentBoundaryAdmits()
    ensures IsPathAllowed(Config(["/allowed"]), "/allowed")
    ensures IsPathAllowed(Config(["/allowed"]), "/allowed/f")
  {
    assert IsPlainSegment("allowed") && IsPlainSegment("f");
    CleanOnePlain("allowed");
    CleanTwoPlain("allowed", "f");
    assert "/allowed" == [Separator] + "allowed";
    assert "/allowed/f" == [Separator] + "allowed" + [Separator] + "f";
    assert Admits("/allowed", "/allowed/f");
    SingleEntryGate("/allowed", "/allowed");
    SingleEntryGate("/allowed", "/allowed/f");
  }

  /** An entry admits no longer clean path that has something other than a
      separator right after the entry's length: in particular, an entry
      that is a text prefix of a path but ends inside one of its segments. */
  lemma NotAtBoundaryRefused(d: string, c: string)
    requires IsAbs(c) && Clean(c) == c
    requires |c| > |d| && c[|d|] != Separator
    ensures !IsPathAllowed(Config([d]), c)
  {
    assert (d + [Separator])[|d|] == Separator;
    SingleEntryGate(d, c);
  }

  /** With only "/allowed" in the list, "/allowed-dirs" is refused although
      "/allowed" is a prefix of its text. */
  lemma SegmentBoundaryRefusesSibling()
    ensures !IsPathAllowed(Config(["/allowed"]), "/allowed-dirs")
  {
    SiblingIsClean();
    NotAtBoundaryRefused("/allowed", "/allowed-dirs");
  }

  lemma SiblingIsClean()
    ensures Clean("/allowed-dirs") == "/allowed-dirs"
  {
    assert IsPlainSegment("allowed-dirs");
    CleanOnePlain("allowed-dirs");
    assert [Separator] + "allowed-dirs" == "/allowed-dirs";
  }

  /** With only "/allowed" in the list, "/allowedx/f" is refused. */
  lemma SegmentBoundaryRefusesLongerSegment()
    ensures !IsPathAllowed(Config(["/allowed"]), "/allowedx/f")
  {
    LongerSegmentIsClean();
    NotAtBoundaryRefused("/allowed", "/allowedx/f");
  }

  lemma LongerSegmentIsClean()
    ensures Clean("/allowedx/f") == "/allowedx/f"
  {
    assert IsPlainSegment("allowedx") && IsPlainSegment("f");
    CleanTwoPlain("allowedx", "f");
    assert [Separator] + "allowedx" + [Separator] + "f" == "/allowedx/f";
  }

  /** Cleaning happens before the comparison, so a ".." that climbs out of
      the entry is refused: with only "/a" in the list, "/a/../b" (which
      cleans to "/b") is admitted only when b is a itself. */
  lemma DotDotEscapeRefused(a: string, b: string)
    requires IsPlainSegment(a) && IsPlainSegment(b)
    ensures IsPathAllowed(Config([[Separator] + a]), [Separator] + a + [Separator] + ".." + [Separator] + b) <==> b == a
  {
    CleanDropsDotDot(a, b);
    var c := [Separator] + b;
    var d := [Separator] + a;
    if |b| > |a| {
      assert c[|d|] == b[|a|] && b[|a|] != Separator;
    }
    assert !HasPrefix(c, d + [Separator]);
    if c == d {
      assert c[1..] == b && d[1..] == a;
    }
  }
}

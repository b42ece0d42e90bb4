/** Go's `path/filepath` on Unix, where the separator is '/' and there are no
    volume names: `IsAbs`, `HasPrefix`, `Clean`, `Join`, `Abs`, and the parent
    relation `os.MkdirAll` walks. `Clean` is written by path segments (drop
    empty and "." segments, let ".." remove the segment before it, never climb
    above the root), which is the purely lexical rule set Go documents. */
module Paths {
  import opened Results
  import Strings

  const Separator: char := '/'

  /** `filepath.IsAbs` on Unix. */
  predicate IsAbs(p: string)
  {
    |p| > 0 && p[0] == Separator
  }

  /** `filepath.HasPrefix` on Unix: a plain prefix test on the text, with no
      notion of path segments. */
  predicate HasPrefix(p: string, prefix: string)
  {
    prefix <= p
  }

  /** One segment of a cleaned path: non-empty and free of separators. */
  predicate IsSegment(s: string)
  {
    |s| > 0 && Strings.NoChar(s, Separator)
  }

  /** Lexical resolution of the segments of a path onto `stack`, the segments
      kept so far. In a rooted path ".." at the root is dropped; in a relative
      path leading ".." segments are kept. */
  function Resolve(segs: seq<string>, rooted: bool, stack: seq<string>): (r: seq<string>)
    requires forall i :: 0 <= i < |segs| ==> Strings.NoChar(segs[i], Separator)
    requires forall i :: 0 <= i < |stack| ==> IsSegment(stack[i])
    ensures forall i :: 0 <= i < |r| ==> IsSegment(r[i])
    decreases |segs|
  {
    if segs == [] then stack
    else
      var s := segs[0];
      if s == "" || s == "." then Resolve(segs[1..], rooted, stack)
      else if s == ".." then
        if |stack| > 0 && stack[|stack| - 1] != ".." then Resolve(segs[1..], rooted, stack[..|stack| - 1])
        else if rooted then Resolve(segs[1..], rooted, stack)
        else Resolve(segs[1..], rooted, stack + [".."])
      else Resolve(segs[1..], rooted, stack + [s])
  }

  /** `filepath.Clean`: the shortest lexically equivalent path. */
  function Clean(p: string): string
  {
    if p == "" then "."
    else
      var rooted := p[0] == Separator;
      var body := Strings.Join(Resolve(Strings.Split(p, Separator), rooted, []), [Separator]);
      if rooted then [Separator] + body
      else if body == "" then "."
      else body
  }

  /** `filepath.Join(a, b)` for two elements: the non-empty ones joined by the
      separator, then cleaned; "" when both are empty. */
  function Join(a: string, b: string): string
  {
    if a == "" && b == "" then ""
    else if a == "" then Clean(b)
    else if b == "" then Clean(a)
    else Clean(a + [Separator] + b)
  }

  /** `filepath.Abs` on Unix: an absolute path is only cleaned; a relative one
      is joined to the working directory, whose lookup (`os.Getwd`) is the
      parameter `cwd`, `None` when it fails. */
  function Abs(p: string, cwd: Option<string>): Result<string>
  {
    if IsAbs(p) then Ok(Clean(p))
    else if cwd.None? then Err(InvalidPath(p))
    else Ok(Join(cwd.value, p))
  }

  /** A joined sequence of segments does not begin with a separator. */
  lemma JoinedSegmentsStart(segs: seq<string>)
    requires |segs| > 0
    requires forall i :: 0 <= i < |segs| ==> IsSegment(segs[i])
    ensures var j := Strings.Join(segs, [Separator]); |j| > 0 && j[0] != Separator
  {
  }

  /** A joined sequence of segments does not end with a separator. */
  lemma {:induction false} JoinedSegmentsEnd(segs: seq<string>)
    requires |segs| > 0
    requires forall i :: 0 <= i < |segs| ==> IsSegment(segs[i])
    ensures var j := Strings.Join(segs, [Separator]); |j| > 0 && j[|j| - 1] != Separator
    decreases |segs|
  {
    if |segs| > 1 {
      JoinedSegmentsEnd(segs[1..]);
    }
  }

  /** Segments that `Clean` keeps as they are. */
  predicate AllPlain(segs: seq<string>)
  {
    forall i :: 0 <= i < |segs| ==> IsPlainSegment(segs[i])
  }

  /** A cleaned absolute path: "/" itself, or "/" followed by plain segments
      (none empty, "." or "..") with one separator between neighbours. */
  predicate IsCanonical(c: string)
  {
    c == [Separator] || (IsAbs(c) && AllPlain(Strings.Split(c[1..], Separator)))
  }

  /** A rooted resolution never keeps an empty, "." or ".." segment. */
  lemma {:induction false} ResolveKeepsPlain(segs: seq<string>, stack: seq<string>)
    requires forall i :: 0 <= i < |segs| ==> Strings.NoChar(segs[i], Separator)
    requires AllPlain(stack)
    ensures forall i :: 0 <= i < |stack| ==> IsSegment(stack[i])
    ensures AllPlain(Resolve(segs, true, stack))
    decreases |segs|
  {
    if segs != [] {
      var s := segs[0];
      if s == "" || s == "." {
        ResolveKeepsPlain(segs[1..], stack);
      } else if s == ".." {
        if |stack| > 0 && stack[|stack| - 1] != ".." {
          ResolveKeepsPlain(segs[1..], stack[..|stack| - 1]);
        } else {
          ResolveKeepsPlain(segs[1..], stack);
        }
      } else {
        ResolveKeepsPlain(segs[1..], stack + [s]);
      }
    }
  }

  /** Cleaning an absolute path gives a canonical one, which in particular
      has no "//" prefix and no trailing separator. */
  lemma CleanAbsolute(p: string)
    requires IsAbs(p)
    ensures IsCanonical(Clean(p))
    ensures var c := Clean(p); c == [Separator] || (|c| >= 2 && c[1] != Separator && c[|c| - 1] != Separator)
  {
    var stack := Resolve(Strings.Split(p, Separator), true, []);
    ResolveKeepsPlain(Strings.Split(p, Separator), []);
    var body := Strings.Join(stack, [Separator]);
    if |stack| > 0 {
      JoinedSegmentsStart(stack);
      JoinedSegmentsEnd(stack);
      Strings.SplitJoin(stack, Separator);
      assert Clean(p)[1..] == body;
    }
  }

  /** An absolute result of `Abs`: always for an absolute input, and for a
      relative one whenever the working directory is absolute (as `os.Getwd`
      returns it). */
  lemma AbsIsAbsolute(p: string, cwd: Option<string>)
    requires IsAbs(p) || (cwd.Some? && IsAbs(cwd.value))
    ensures Abs(p, cwd).Ok? && IsCanonical(Abs(p, cwd).value)
  {
    if IsAbs(p) {
      CleanAbsolute(p);
    } else if p == "" {
      CleanAbsolute(cwd.value);
    } else {
      CleanAbsolute(cwd.value + [Separator] + p);
    }
  }

  /** A segment that `Clean` keeps as it is: neither "." nor "..". */
  predicate IsPlainSegment(s: string)
  {
    IsSegment(s) && s != "." && s != ".."
  }

  /** Plain segments are pushed onto the stack unchanged. */
  lemma {:induction false} ResolvePlain(segs: seq<string>, rooted: bool, stack: seq<string>)
    requires forall i :: 0 <= i < |segs| ==> IsPlainSegment(segs[i])
    requires forall i :: 0 <= i < |stack| ==> IsSegment(stack[i])
    ensures forall i :: 0 <= i < |segs| ==> Strings.NoChar(segs[i], Separator)
    ensures Resolve(segs, rooted, stack) == stack + segs
    decreases |segs|
  {
    if segs != [] {
      ResolvePlain(segs[1..], rooted, stack + [segs[0]]);
      assert stack + [segs[0]] + segs[1..] == stack + segs;
    }
  }

  /** Splitting a rooted path gives an empty first piece, then the pieces of
      the rest. */
  lemma SplitRooted(body: string)
    ensures Strings.Split([Separator] + body, Separator) == [""] + Strings.Split(body, Separator)
  {
    assert ([Separator] + body)[1..] == body;
  }

  /** "/" resolves to no segments at all. */
  lemma ResolveRoot()
    ensures Resolve(Strings.Split("/", Separator), true, []) == []
  {
    SplitRooted("");
    assert [Separator] + "" == "/";
    assert Strings.Split("/", Separator) == ["", ""];
    assert ["", ""][1..] == [""] && [""][1..] == [];
  }

  /** The segments of "/" followed by plain segments resolve to those
      segments. */
  lemma ResolveRootedPlain(segs: seq<string>)
    requires forall i :: 0 <= i < |segs| ==> IsPlainSegment(segs[i])
    ensures Resolve(Strings.Split([Separator] + Strings.Join(segs, [Separator]), Separator), true, []) == segs
  {
    if segs == [] {
      assert [Separator] + Strings.Join(segs, [Separator]) == "/";
      ResolveRoot();
    } else {
      var body := Strings.Join(segs, [Separator]);
      SplitRooted(body);
      ResolvePlain(segs, true, []);
      Strings.SplitJoin(segs, Separator);
      var sp := Strings.Split([Separator] + body, Separator);
      assert sp == [""] + segs;
      assert sp[1..] == segs;
    }
  }

  /** A rooted path made of plain segments is already clean: `Clean` returns
      it unchanged ("/" when there are no segments). */
  lemma CleanPlain(segs: seq<string>)
    requires forall i :: 0 <= i < |segs| ==> IsPlainSegment(segs[i])
    ensures var p := [Separator] + Strings.Join(segs, [Separator]); Clean(p) == p
  {
    ResolveRootedPlain(segs);
  }

  /** "/a" is clean for a plain segment a. */
  lemma CleanOnePlain(a: string)
    requires IsPlainSegment(a)
    ensures Clean([Separator] + a) == [Separator] + a
  {
    CleanPlain([a]);
  }

  /** "/a/b" is clean for plain segments a and b. */
  lemma CleanTwoPlain(a: string, b: string)
    requires IsPlainSegment(a) && IsPlainSegment(b)
    ensures Clean([Separator] + a + [Separator] + b) == [Separator] + a + [Separator] + b
  {
    CleanPlain([a, b]);
    assert [a, b][1..] == [b];
    assert [Separator] + Strings.Join([a, b], [Separator]) == [Separator] + a + [Separator] + b;
  }

  /** The pieces of "/a/../b". */
  lemma SplitDotDot(a: string, b: string)
    requires IsPlainSegment(a) && IsPlainSegment(b)
    ensures Strings.Split([Separator] + a + [Separator] + ".." + [Separator] + b, Separator) == ["", a, "..", b]
  {
    var segs := [a, "..", b];
    var body := Strings.Join(segs, [Separator]);
    assert body == a + [Separator] + ".." + [Separator] + b by {
      assert segs[1..] == ["..", b] && segs[1..][1..] == [b];
      assert Strings.Join(["..", b], [Separator]) == ".." + [Separator] + b;
    }
    assert Strings.Split(body, Separator) == segs by {
      assert Strings.NoChar("..", Separator);
      Strings.SplitJoin(segs, Separator);
    }
    SplitRooted(body);
    assert [Separator] + a + [Separator] + ".." + [Separator] + b == [Separator] + body;
  }

  /** Resolving "/a/../b": ".." removes a. */
  lemma ResolveDotDot(a: string, b: string)
    requires IsPlainSegment(a) && IsPlainSegment(b)
    ensures Resolve(["", a, "..", b], true, []) == [b]
  {
    assert Strings.NoChar("", Separator) && Strings.NoChar("..", Separator);
    assert ["", a, "..", b] == [""] + [a, "..", b];
    ResolveSkip("", [a, "..", b], []);
    assert [a, "..", b] == [a] + ["..", b];
    ResolvePush(a, ["..", b], []);
    assert ["..", b] == [".."] + [b];
    ResolvePop([b], [a]);
    assert [a][..0] == [];
    ResolvePush(b, [], []);
    assert [b] == [b] + [];
  }

  /** An empty or "." segment is dropped. */
  lemma ResolveSkip(s: string, rest: seq<string>, stack: seq<string>)
    requires (s == "" || s == ".") && forall i :: 0 <= i < |rest| ==> Strings.NoChar(rest[i], Separator)
    requires forall i :: 0 <= i < |stack| ==> IsSegment(stack[i])
    ensures forall i :: 0 <= i < |[s] + rest| ==> Strings.NoChar(([s] + rest)[i], Separator)
    ensures Resolve([s] + rest, true, stack) == Resolve(rest, true, stack)
  {
    assert ([s] + rest)[1..] == rest;
  }

  /** A plain segment is pushed. */
  lemma ResolvePush(s: string, rest: seq<string>, stack: seq<string>)
    requires IsPlainSegment(s) && forall i :: 0 <= i < |rest| ==> Strings.NoChar(rest[i], Separator)
    requires forall i :: 0 <= i < |stack| ==> IsSegment(stack[i])
    ensures forall i :: 0 <= i < |[s] + rest| ==> Strings.NoChar(([s] + rest)[i], Separator)
    ensures Resolve([s] + rest, true, stack) == Resolve(rest, true, stack + [s])
  {
    assert ([s] + rest)[1..] == rest;
  }

  /** ".." after a kept segment removes it. */
  lemma ResolvePop(rest: seq<string>, stack: seq<string>)
    requires forall i :: 0 <= i < |rest| ==> Strings.NoChar(rest[i], Separator)
    requires forall i :: 0 <= i < |stack| ==> IsSegment(stack[i])
    requires |stack| > 0 && stack[|stack| - 1] != ".."
    ensures forall i :: 0 <= i < |[".."] + rest| ==> Strings.NoChar(([".."] + rest)[i], Separator)
    ensures Resolve([".."] + rest, true, stack) == Resolve(rest, true, stack[..|stack| - 1])
  {
    assert Strings.NoChar("..", Separator);
    assert ([".."] + rest)[1..] == rest;
  }

  /** A ".." right after a segment cancels it: "/a/../b" cleans to "/b". */
  lemma CleanDropsDotDot(a: string, b: string)
    requires IsPlainSegment(a) && IsPlainSegment(b)
    ensures Clean([Separator] + a + [Separator] + ".." + [Separator] + b) == [Separator] + b
  {
    SplitDotDot(a, b);
    ResolveDotDot(a, b);
  }

  /** The index of the last separator in `p`, -1 when there is none. */
  function LastSeparator(p: string): (i: int)
    ensures -1 <= i < |p|
    ensures i >= 0 ==> p[i] == Separator
    ensures forall j :: i < j < |p| ==> p[j] != Separator
    decreases |p|
  {
    if p == [] then -1
    else if p[|p| - 1] == Separator then |p| - 1
    else LastSeparator(p[..|p| - 1])
  }

  /** The parent of a cleaned absolute path, as `filepath.Dir` gives it:
      everything before the last separator, "/" for a path right below the
      root. */
  function Parent(p: string): string
  {
    var i := LastSeparator(p);
    if i <= 0 then [Separator] else p[..i]
  }

  /** The directories `os.MkdirAll` makes sure of: the path and each of its
      parents up to the root. */
  function Chain(p: string): set<string>
    decreases |p|
  {
    if |p| <= 1 then {p}
    else {p} + Chain(Parent(p))
  }

  /** The path itself is in its chain. */
  lemma ChainHasPath(p: string)
    ensures p in Chain(p)
  {
  }

  /** Every member of the chain of an absolute path is the root, the path
      itself, or a directory above it: nothing beside the path is made. */
  lemma {:induction false} ChainIsAncestry(p: string)
    requires IsAbs(p)
    ensures forall c :: c in Chain(p) ==> c == [Separator] || c == p || HasPrefix(p, c + [Separator])
    decreases |p|
  {
    if |p| > 1 {
      var i := LastSeparator(p);
      var q := Parent(p);
      if i > 0 {
        assert HasPrefix(p, q + [Separator]) by {
          assert p[..i + 1] == q + [Separator];
        }
        ChainIsAncestry(q);
        forall c | c in Chain(q) && HasPrefix(q, c + [Separator])
          ensures HasPrefix(p, c + [Separator])
        {
          assert (c + [Separator]) <= q <= p;
        }
      } else {
        assert Chain(q) == {q};
      }
    }
  }
}

/** The directory_tree tool of tool/directory_tree_handler.go. The filesystem
    below the requested directory is a finite tree of `Node`s. `buildTree`
    starts one goroutine per entry and gathers their results through two
    channels in a `select` loop, so its result order is not fixed and an
    error from a subtree may be returned or lost when the result channel
    closes first. The specification is therefore a relation, `IsOutcome`,
    admitting every result that schedule can produce; `BuildTree` computes
    one of them sequentially. */
module DirectoryTree {
  import opened Results
  import opened Sandbox
  import opened Requests
  import Paths

  /** What `os.ReadDir` and `DirEntry.IsDir` report: a file, or a directory
      whose listing can be read or fails. */
  datatype Node =
    | File(name: string)
    | Directory(name: string, readable: bool, children: seq<Node>)

  /** `TreeEntry`: `kind` is the `Type` field, "file" or "directory"; a file
      has no children. */
  datatype TreeEntry = TreeEntry(name: string, kind: string, children: seq<TreeEntry>)

  /** What one goroutine sends for a directory entry once its subtree (if
      any) is built: the entry on the result channel, or the subtree's error
      on the error channel. */
  function Wrap(name: string, sub: Result<seq<TreeEntry>>): Result<TreeEntry>
  {
    match sub
    case Ok(children) => Ok(TreeEntry(name, "directory", children))
    case Err(e) => Err(e)
  }

  /** The entries the goroutines send on the result channel, in entry
      order. */
  function Successes(outs: seq<Result<TreeEntry>>): seq<TreeEntry>
    decreases |outs|
  {
    if outs == [] then []
    else (if outs[0].Ok? then [outs[0].value] else []) + Successes(outs[1..])
  }

  /** The outcomes of the `select` loop over the goroutines' sends `outs`:
      every sent entry, in any order, once the result channel is closed; or
      any one of the sent errors. */
  ghost predicate LevelOutcome(outs: seq<Result<TreeEntry>>, r: Result<seq<TreeEntry>>)
  {
    match r
    case Ok(s) => multiset(s) == multiset(Successes(outs))
    case Err(e) => exists i :: 0 <= i < |outs| && outs[i] == Err(e)
  }

  /** `r` is a possible result of `buildTree` on directory `dir` at `path`. */
  ghost predicate IsOutcome(dir: Node, path: string, r: Result<seq<TreeEntry>>)
    requires dir.Directory?
    decreases dir, 0
  {
    if !dir.readable then r == Err(ReadDirFailed(path))
    else exists outs: seq<Result<TreeEntry>> ::
           |outs| == |dir.children| &&
           (forall i :: 0 <= i < |outs| ==> IsEntryOutcome(dir.children[i], path, outs[i])) &&
           LevelOutcome(outs, r)
  }

  /** `o` is a possible send of the goroutine for entry `child` of the
      directory at `dirPath`. */
  ghost predicate IsEntryOutcome(child: Node, dirPath: string, o: Result<TreeEntry>)
    decreases child, 1
  {
    match child
    case File(name) => o == Ok(TreeEntry(name, "file", []))
    case Directory(name, _, _) =>
      exists sub :: IsOutcome(child, Paths.Join(dirPath, name), sub) && o == Wrap(name, sub)
  }

  /** One goroutine of `buildTree`. */
  method BuildEntry(child: Node, dirPath: string) returns (o: Result<TreeEntry>)
    ensures IsEntryOutcome(child, dirPath, o)
    decreases child, 1
  {
    match child
    case File(name) =>
      o := Ok(TreeEntry(name, "file", []));
    case Directory(name, _, _) =>
      var sub := BuildTree(child, Paths.Join(dirPath, name));
      o := Wrap(name, sub);
  }

  /** `buildTree`: read the directory, run one goroutine per entry (here one
      after the other, in entry order) and gather what they send. */
  method BuildTree(dir: Node, path: string) returns (r: Result<seq<TreeEntry>>)
    requires dir.Directory?
    ensures IsOutcome(dir, path, r)
    decreases dir, 0
  {
    if !dir.readable {
      return Err(ReadDirFailed(path));
    }
    var outs: seq<Result<TreeEntry>> := [];
    for i := 0 to |dir.children|
      invariant |outs| == i
      invariant forall j :: 0 <= j < i ==> IsEntryOutcome(dir.children[j], path, outs[j])
    {
      var o := BuildEntry(dir.children[i], path);
      outs := outs + [o];
    }
    r := Gather(outs);
  }

  /** The `select` loop: entries are appended as they arrive; an error that
      arrives may be returned at once or, if the result channel is seen
      closed first, never looked at. */
  method Gather(outs: seq<Result<TreeEntry>>) returns (r: Result<seq<TreeEntry>>)
    ensures LevelOutcome(outs, r)
  {
    var result: seq<TreeEntry> := [];
    for i := 0 to |outs|
      invariant result == Successes(outs[..i])
    {
      SuccessesSnoc(outs[..i], outs[i]);
      assert outs[..i + 1] == outs[..i] + [outs[i]];
      match outs[i]
      case Ok(entry) =>
        result := result + [entry];
      case Err(e) =>
        var received: bool :| true;
        if received {
          return Err(e);
        }
    }
    assert outs[..|outs|] == outs;
    r := Ok(result);
  }

  lemma {:induction false} SuccessesSnoc(outs: seq<Result<TreeEntry>>, o: Result<TreeEntry>)
    ensures Successes(outs + [o]) == Successes(outs) + (if o.Ok? then [o.value] else [])
    decreases |outs|
  {
    var t := outs + [o];
    var head := if t[0].Ok? then [t[0].value] else [];
    assert Successes(t) == head + Successes(t[1..]);
    if outs == [] {
      assert t[1..] == [];
    } else {
      assert t[0] == outs[0] && t[1..] == outs[1..] + [o];
      SuccessesSnoc(outs[1..], o);
      assert Successes(outs) == head + Successes(outs[1..]);
    }
  }

  /** Every sent entry comes from the goroutine of some entry. */
  lemma {:induction false} SuccessSource(outs: seq<Result<TreeEntry>>, e: TreeEntry)
    requires e in Successes(outs)
    ensures exists i :: 0 <= i < |outs| && outs[i] == Ok(e)
    decreases |outs|
  {
    if !(outs[0].Ok? && outs[0].value == e) {
      SuccessSource(outs[1..], e);
      var i :| 0 <= i < |outs[1..]| && outs[1..][i] == Ok(e);
      assert outs[i + 1] == Ok(e);
    }
  }

  /** `DirectoryTreeHandler.Handle` after the checks: the stat lookup is the
      map `stat` from absolute path to what is found there. */
  ghost predicate TreeToolOutcome(cfg: Config, cwd: Option<string>, args: Arguments,
                                  stat: map<string, Node>, r: Result<seq<TreeEntry>>)
  {
    match StringArg(args, "path")
    case None => r == Err(InvalidArguments("directory_tree"))
    case Some(path) =>
      match Paths.Abs(path, cwd)
      case Err(e) => r == Err(e)
      case Ok(p) =>
        if !IsPathAllowed(cfg, p) then r == Err(OutsideAllowed(p))
        else if p !in stat then r == Err(AccessFailed(p))
        else if !stat[p].Directory? then r == Err(NotADirectory(p))
        else exists t :: IsOutcome(stat[p], p, t) &&
                         r == (if t.Ok? then t else Err(TreeFailed(t.error)))
  }

  /** `DirectoryTreeHandler.Handle`: the argument, the gate, the existence
      check and the is-directory check, then `buildTree`; the tree itself is
      returned in place of its JSON text. */
  method Handle(cfg: Config, cwd: Option<string>, args: Arguments, stat: map<string, Node>)
    returns (r: Result<seq<TreeEntry>>)
    ensures TreeToolOutcome(cfg, cwd, args, stat, r)
  {
    var path := StringArg(args, "path");
    if path.None? {
      return Err(InvalidArguments("directory_tree"));
    }
    var absPath := Paths.Abs(path.value, cwd);
    if absPath.Err? {
      return Err(absPath.error);
    }
    var p := absPath.value;
    if !IsPathAllowed(cfg, p) {
      return Err(OutsideAllowed(p));
    }
    if p !in stat {
      return Err(AccessFailed(p));
    }
    if !stat[p].Directory? {
      return Err(NotADirectory(p));
    }
    var tree := BuildTree(stat[p], p);
    if tree.Err? {
      return Err(TreeFailed(tree.error));
    }
    return tree;
  }

  /** No traversal happens unless the path passed the gate, exists and is a
      directory: a traversal error is only possible past all three checks,
      and a path outside the allow-list gets the gate's error whatever is on
      disk. */
  lemma ChecksBeforeTraversal(cfg: Config, cwd: Option<string>, args: Arguments,
                              stat: map<string, Node>, r: Result<seq<TreeEntry>>, p: string)
    requires TreeToolOutcome(cfg, cwd, args, stat, r)
    requires StringArg(args, "path").Some? && Paths.Abs(StringArg(args, "path").value, cwd) == Ok(p)
    ensures !IsPathAllowed(cfg, p) ==> r == Err(OutsideAllowed(p))
    ensures IsPathAllowed(cfg, p) && p in stat && stat[p].File? ==> r == Err(NotADirectory(p))
    ensures r.Ok? || r.error.TreeFailed? ==>
              IsPathAllowed(cfg, p) && p in stat && stat[p].Directory? && IsOutcome(stat[p], p, if r.Ok? then r else Err(r.error.cause))
  {
    if r.Ok? || r.error.TreeFailed? {
      var t :| IsOutcome(stat[p], p, t) && r == (if t.Ok? then t else Err(TreeFailed(t.error)));
      assert t == (if r.Ok? then r else Err(r.error.cause));
    }
  }

  /** An empty directory yields an empty sequence, and nothing else. */
  lemma EmptyDirectory(name: string, path: string, r: Result<seq<TreeEntry>>)
    ensures IsOutcome(Directory(name, true, []), path, r) <==> r == Ok([])
  {
    var outs: seq<Result<TreeEntry>> := [];
    assert Successes(outs) == [];
    if IsOutcome(Directory(name, true, []), path, r) {
      var o: seq<Result<TreeEntry>> :| |o| == 0 && LevelOutcome(o, r);
      assert o == [];
      if r.Ok? {
        assert |r.value| == |multiset(r.value)| == 0;
      }
    }
    if r == Ok([]) {
      assert LevelOutcome(outs, r);
    }
  }

  /** A directory whose listing fails yields that error and no entries. */
  lemma UnreadableDirectory(name: string, children: seq<Node>, path: string, r: Result<seq<TreeEntry>>)
    ensures IsOutcome(Directory(name, false, children), path, r) <==> r == Err(ReadDirFailed(path))
  {
  }

  /** An entry's send: a file gives a "file" entry with no children; a
      directory gives a "directory" entry whose children are a result of
      `buildTree` on it, or that call's error. Either way the entry carries
      the name it was listed under. */
  lemma EntryShape(child: Node, dirPath: string, o: Result<TreeEntry>)
    requires IsEntryOutcome(child, dirPath, o)
    ensures child.File? ==> o == Ok(TreeEntry(child.name, "file", []))
    ensures child.Directory? && o.Ok? ==>
              o.value.name == child.name && o.value.kind == "directory" &&
              IsOutcome(child, Paths.Join(dirPath, child.name), Ok(o.value.children))
    ensures child.Directory? && o.Err? ==> IsOutcome(child, Paths.Join(dirPath, child.name), Err(o.error))
    ensures o.Ok? ==> o.value.name == child.name
  {
    if child.Directory? {
      var sub :| IsOutcome(child, Paths.Join(dirPath, child.name), sub) && o == Wrap(child.name, sub);
      assert sub == (if o.Ok? then Ok(o.value.children) else Err(o.error));
    }
  }

  /** The names of a sequence of entries or nodes. */
  function EntryNames(s: seq<TreeEntry>): seq<string>
  {
    seq(|s|, i requires 0 <= i < |s| => s[i].name)
  }

  function NodeNames(s: seq<Node>): seq<string>
  {
    seq(|s|, i requires 0 <= i < |s| => s[i].name)
  }

  /** Reordering entries reorders their names. */
  lemma {:induction false} PermutedNames(a: seq<TreeEntry>, b: seq<TreeEntry>)
    requires multiset(a) == multiset(b)
    ensures multiset(EntryNames(a)) == multiset(EntryNames(b))
    decreases |a|
  {
    if a == [] {
      assert |b| == |multiset(b)| == 0;
    } else {
      assert a[0] in multiset(b);
      var k :| 0 <= k < |b| && b[k] == a[0];
      RemoveAt(a, 0);
      RemoveAt(b, k);
      assert a[..0] + a[1..] == a[1..];
      var rest := b[..k] + b[k + 1..];
      assert multiset(a[1..]) == multiset(a) - multiset{a[0]};
      assert multiset(rest) == multiset(b) - multiset{a[0]};
      PermutedNames(a[1..], b[..k] + b[k + 1..]);
    }
  }

  /** Taking out the entry at `k` takes out one copy of it and of its name. */
  lemma RemoveAt(s: seq<TreeEntry>, k: nat)
    requires k < |s|
    ensures multiset(s) == multiset(s[..k] + s[k + 1..]) + multiset{s[k]}
    ensures multiset(EntryNames(s)) == multiset(EntryNames(s[..k] + s[k + 1..])) + multiset{s[k].name}
  {
    assert s == s[..k] + [s[k]] + s[k + 1..];
    NamesConcat(s[..k] + [s[k]], s[k + 1..]);
    NamesConcat(s[..k], [s[k]]);
    NamesConcat(s[..k], s[k + 1..]);
  }

  /** The names of the sent entries, when each send carries its entry's
      name, lie within the listed names. */
  lemma {:induction false} SuccessNames(outs: seq<Result<TreeEntry>>, children: seq<Node>)
    requires |outs| == |children|
    requires forall i :: 0 <= i < |outs| && outs[i].Ok? ==> outs[i].value.name == children[i].name
    ensures multiset(EntryNames(Successes(outs))) <= multiset(NodeNames(children))
    decreases |outs|
  {
    if outs != [] {
      var head := if outs[0].Ok? then [outs[0].value] else [];
      var rest := Successes(outs[1..]);
      assert Successes(outs) == head + rest;
      SuccessNames(outs[1..], children[1..]);
      NamesConcat(head, rest);
      NodeNamesCons(children);
      assert multiset(EntryNames(head)) <= multiset{children[0].name} by {
        if outs[0].Ok? {
          assert EntryNames(head) == [children[0].name];
        } else {
          assert EntryNames(head) == [];
        }
      }
      assert multiset(NodeNames(children)) == multiset{children[0].name} + multiset(NodeNames(children[1..]));
    }
  }

  /** When every send succeeded, they are exactly the listed names. */
  lemma {:induction false} AllSuccessNames(outs: seq<Result<TreeEntry>>, children: seq<Node>)
    requires |outs| == |children|
    requires forall i :: 0 <= i < |outs| ==> outs[i].Ok? && outs[i].value.name == children[i].name
    ensures multiset(EntryNames(Successes(outs))) == multiset(NodeNames(children))
    decreases |outs|
  {
    if outs != [] {
      AllSuccessNames(outs[1..], children[1..]);
      NamesConcat([outs[0].value], Successes(outs[1..]));
      NodeNamesCons(children);
    }
  }

  lemma NodeNamesCons(children: seq<Node>)
    requires children != []
    ensures NodeNames(children) == [children[0].name] + NodeNames(children[1..])
  {
  }

  lemma NamesConcat(x: seq<TreeEntry>, y: seq<TreeEntry>)
    ensures EntryNames(x + y) == EntryNames(x) + EntryNames(y)
  {
  }

  /** Every returned entry is named after a distinct direct child: the
      multiset of returned names lies within the multiset of listed names. */
  lemma NamesAreChildren(dir: Node, path: string, s: seq<TreeEntry>)
    requires dir.Directory? && IsOutcome(dir, path, Ok(s))
    ensures multiset(EntryNames(s)) <= multiset(NodeNames(dir.children))
  {
    var outs: seq<Result<TreeEntry>> :| |outs| == |dir.children| &&
                (forall i :: 0 <= i < |outs| ==> IsEntryOutcome(dir.children[i], path, outs[i])) &&
                LevelOutcome(outs, Ok(s));
    forall i | 0 <= i < |outs| && outs[i].Ok?
      ensures outs[i].value.name == dir.children[i].name
    {
      EntryShape(dir.children[i], path, outs[i]);
    }
    SuccessNames(outs, dir.children);
    PermutedNames(s, Successes(outs));
  }

  /** Every directory in the tree can be listed. */
  predicate AllReadable(n: Node)
  {
    match n
    case File(_) => true
    case Directory(_, readable, children) =>
      readable && forall i :: 0 <= i < |children| ==> AllReadable(children[i])
  }

  /** If every nested listing succeeds, every outcome is a success, and its
      names are exactly the listed names in some order. */
  lemma {:induction false} AllReadableSucceeds(dir: Node, path: string, r: Result<seq<TreeEntry>>)
    requires dir.Directory? && AllReadable(dir) && IsOutcome(dir, path, r)
    ensures r.Ok? && multiset(EntryNames(r.value)) == multiset(NodeNames(dir.children))
    decreases dir, 0
  {
    var outs: seq<Result<TreeEntry>> :| |outs| == |dir.children| &&
                (forall i :: 0 <= i < |outs| ==> IsEntryOutcome(dir.children[i], path, outs[i])) &&
                LevelOutcome(outs, r);
    forall i | 0 <= i < |outs|
      ensures outs[i].Ok? && outs[i].value.name == dir.children[i].name
    {
      AllReadableEntrySucceeds(dir.children[i], path, outs[i]);
      EntryShape(dir.children[i], path, outs[i]);
    }
    AllSuccessNames(outs, dir.children);
    PermutedNames(r.value, Successes(outs));
  }

  lemma {:induction false} AllReadableEntrySucceeds(child: Node, dirPath: string, o: Result<TreeEntry>)
    requires AllReadable(child) && IsEntryOutcome(child, dirPath, o)
    ensures o.Ok?
    decreases child, 1
  {
    if child.Directory? {
      var sub :| IsOutcome(child, Paths.Join(dirPath, child.name), sub) && o == Wrap(child.name, sub);
      AllReadableSucceeds(child, Paths.Join(dirPath, child.name), sub);
    }
  }

  /** One run of the `select` loop: when the goroutine of entry `k` sent an
      error, the result is an error or lacks that entry (when the listed
      names are distinct); a failed subtree is never replaced by an entry. */
  lemma FailedSendAbsent(dir: Node, path: string, outs: seq<Result<TreeEntry>>, r: Result<seq<TreeEntry>>, k: nat)
    requires dir.Directory? && |outs| == |dir.children|
    requires forall i :: 0 <= i < |outs| ==> IsEntryOutcome(dir.children[i], path, outs[i])
    requires forall i, j :: 0 <= i < j < |dir.children| ==> dir.children[i].name != dir.children[j].name
    requires k < |outs| && outs[k].Err?
    requires LevelOutcome(outs, r)
    ensures r.Err? || forall e :: e in r.value ==> e.name != dir.children[k].name
  {
    if r.Ok? {
      forall e | e in r.value
        ensures e.name != dir.children[k].name
      {
        assert e in multiset(Successes(outs));
        SuccessSource(outs, e);
        var i :| 0 <= i < |outs| && outs[i] == Ok(e);
        EntryShape(dir.children[i], path, outs[i]);
      }
    }
  }

  /** A child whose subtree can only fail never appears in a successful
      result (when the listed names are distinct): its error is either
      returned or lost, never replaced by an entry. */
  lemma FailedChildAbsent(dir: Node, path: string, s: seq<TreeEntry>, k: nat)
    requires dir.Directory? && IsOutcome(dir, path, Ok(s))
    requires forall i, j :: 0 <= i < j < |dir.children| ==> dir.children[i].name != dir.children[j].name
    requires k < |dir.children| && dir.children[k].Directory?
    requires forall sub :: IsOutcome(dir.children[k], Paths.Join(path, dir.children[k].name), sub) ==> sub.Err?
    ensures forall e :: e in s ==> e.name != dir.children[k].name
  {
    var outs: seq<Result<TreeEntry>> :| |outs| == |dir.children| &&
                (forall i :: 0 <= i < |outs| ==> IsEntryOutcome(dir.children[i], path, outs[i])) &&
                LevelOutcome(outs, Ok(s));
    EntryShape(dir.children[k], path, outs[k]);
    FailedSendAbsent(dir, path, outs, Ok(s), k);
  }

  /** Building an outcome from the goroutines' sends. */
  lemma OutcomeIntro(dir: Node, path: string, outs: seq<Result<TreeEntry>>, r: Result<seq<TreeEntry>>)
    requires dir.Directory? && dir.readable && |outs| == |dir.children|
    requires forall i :: 0 <= i < |outs| ==> IsEntryOutcome(dir.children[i], path, outs[i])
    requires LevelOutcome(outs, r)
    ensures IsOutcome(dir, path, r)
  {
  }

  lemma SuccessesPair(o1: Result<TreeEntry>, o2: Result<TreeEntry>)
    ensures Successes([o1, o2]) == (if o1.Ok? then [o1.value] else []) + (if o2.Ok? then [o2.value] else [])
  {
    SuccessesSnoc([], o1);
    assert [] + [o1] == [o1];
    SuccessesSnoc([o1], o2);
    assert [o1] + [o2] == [o1, o2];
  }

  /** The race on a concrete tree: a file "a.txt" beside an unreadable
      directory "b". Both the error of "b" and a success listing "a.txt"
      alone are possible outcomes. */
  lemma FailureMayBeReturnedOrLost(path: string)
    ensures var dir := Directory("d", true, [File("a.txt"), Directory("b", false, [])]);
            IsOutcome(dir, path, Err(ReadDirFailed(Paths.Join(path, "b")))) &&
            IsOutcome(dir, path, Ok([TreeEntry("a.txt", "file", [])]))
  {
    var a := TreeEntry("a.txt", "file", []);
    var sub := Directory("b", false, []);
    var dir := Directory("d", true, [File("a.txt"), sub]);
    var failure: Result<seq<TreeEntry>> := Err(ReadDirFailed(Paths.Join(path, "b")));
    var outs := [Ok(a), Wrap("b", failure)];
    assert IsOutcome(sub, Paths.Join(path, "b"), failure);
    assert IsEntryOutcome(dir.children[1], path, outs[1]);
    assert IsEntryOutcome(dir.children[0], path, outs[0]);
    SuccessesPair(outs[0], outs[1]);
    assert outs[1] == Err(failure.error);
    OutcomeIntro(dir, path, outs, failure);
    assert LevelOutcome(outs, Ok([a]));
    OutcomeIntro(dir, path, outs, Ok([a]));
  }

  /** "b" holding only "c.txt" has the one outcome listing it. */
  lemma SingleFileOutcome(path: string)
    ensures IsOutcome(Directory("b", true, [File("c.txt")]), path, Ok([TreeEntry("c.txt", "file", [])]))
  {
    var c := TreeEntry("c.txt", "file", []);
    var outs := [Ok(c)];
    SuccessesSnoc([], Ok(c));
    assert [] + [Ok(c)] == outs;
    assert LevelOutcome(outs, Ok([c]));
    OutcomeIntro(Directory("b", true, [File("c.txt")]), path, outs, Ok([c]));
  }

  /** The sends for a file "a.txt" beside a directory "b" holding
      "c.txt". */
  lemma TwoEntrySends(path: string)
    ensures var dir := Directory("d", true, [File("a.txt"), Directory("b", true, [File("c.txt")])]);
            var a := TreeEntry("a.txt", "file", []);
            var b := TreeEntry("b", "directory", [TreeEntry("c.txt", "file", [])]);
            var outs := [Ok(a), Ok(b)];
            (forall i :: 0 <= i < |outs| ==> IsEntryOutcome(dir.children[i], path, outs[i])) &&
            Successes(outs) == [a, b]
  {
    var c := TreeEntry("c.txt", "file", []);
    var a := TreeEntry("a.txt", "file", []);
    var sub := Directory("b", true, [File("c.txt")]);
    SingleFileOutcome(Paths.Join(path, "b"));
    assert IsEntryOutcome(sub, path, Wrap("b", Ok([c])));
    assert IsEntryOutcome(File("a.txt"), path, Ok(a));
    SuccessesPair(Ok(a), Wrap("b", Ok([c])));
  }

  /** The order of a result is not fixed: for a file "a.txt" beside a
      directory "b" holding "c.txt", both orders of the two entries are
      possible outcomes. */
  lemma EitherOrderPossible(path: string)
    ensures var dir := Directory("d", true, [File("a.txt"), Directory("b", true, [File("c.txt")])]);
            var a := TreeEntry("a.txt", "file", []);
            var b := TreeEntry("b", "directory", [TreeEntry("c.txt", "file", [])]);
            IsOutcome(dir, path, Ok([a, b])) && IsOutcome(dir, path, Ok([b, a]))
  {
    var dir := Directory("d", true, [File("a.txt"), Directory("b", true, [File("c.txt")])]);
    var a := TreeEntry("a.txt", "file", []);
    var b := TreeEntry("b", "directory", [TreeEntry("c.txt", "file", [])]);
    TwoEntrySends(path);
    assert multiset([b, a]) == multiset([a, b]);
    OutcomeIntro(dir, path, [Ok(a), Ok(b)], Ok([a, b]));
    OutcomeIntro(dir, path, [Ok(a), Ok(b)], Ok([b, a]));
  }
}

/** The parts of Go's `strings` package the handlers use: `strings.Join`, and
    `strings.Split` on a one-character separator as its inverse. */
module Strings {

  /** `strings.Join(parts, sep)`: the parts with one `sep` between neighbours. */
  function Join(parts: seq<string>, sep: string): string
    decreases |parts|
  {
    if |parts| == 0 then ""
    else if |parts| == 1 then parts[0]
    else parts[0] + sep + Join(parts[1..], sep)
  }

  /** `strings.Split(s, [c])`: the maximal pieces of `s` between occurrences of
      `c`; there is always at least one piece. */
  function Split(s: string, c: char): (r: seq<string>)
    ensures |r| >= 1
    ensures forall i :: 0 <= i < |r| ==> NoChar(r[i], c)
    decreases |s|
  {
    if |s| == 0 then [""]
    else
      var rest := Split(s[1..], c);
      if s[0] == c then [""] + rest
      else [[s[0]] + rest[0]] + rest[1..]
  }

  /** `s` does not contain the character `c`. */
  predicate NoChar(s: string, c: char)
  {
    forall i :: 0 <= i < |s| ==> s[i] != c
  }

  /** Splitting a piece free of `c` followed by more text. */
  lemma {:induction false} SplitPrefix(a: string, c: char, b: string)
    requires NoChar(a, c)
    ensures Split(a + [c] + b, c) == [a] + Split(b, c)
    decreases |a|
  {
    if |a| == 0 {
      assert a + [c] + b == [c] + b;
      assert ([c] + b)[1..] == b;
    } else {
      var s := a + [c] + b;
      assert s[0] == a[0] && s[1..] == a[1..] + [c] + b;
      SplitPrefix(a[1..], c, b);
      assert [a[0]] + a[1..] == a;
    }
  }

  /** A piece free of `c` splits to itself. */
  lemma {:induction false} SplitNoChar(a: string, c: char)
    requires NoChar(a, c)
    ensures Split(a, c) == [a]
    decreases |a|
  {
    if |a| > 0 {
      SplitNoChar(a[1..], c);
      assert [a[0]] + a[1..] == a;
    }
  }

  /** Round trip: joining pieces free of `c` with `c` and splitting at `c`
      gives the pieces back. */
  lemma {:induction false} SplitJoin(parts: seq<string>, c: char)
    requires |parts| > 0
    requires forall i :: 0 <= i < |parts| ==> NoChar(parts[i], c)
    ensures Split(Join(parts, [c]), c) == parts
    decreases |parts|
  {
    if |parts| == 1 {
      SplitNoChar(parts[0], c);
    } else {
      SplitJoin(parts[1..], c);
      SplitPrefix(parts[0], c, Join(parts[1..], [c]));
      assert [parts[0]] + parts[1..] == parts;
    }
  }

  /** Splitting at an occurrence of `c` splits both sides independently. */
  lemma {:induction false} SplitConcat(a: string, c: char, b: string)
    ensures Split(a + [c] + b, c) == Split(a, c) + Split(b, c)
    decreases |a|
  {
    if |a| == 0 {
      assert a + [c] + b == [c] + b;
      SplitCons(c, b, c);
    } else {
      var t := a[1..] + [c] + b;
      assert a + [c] + b == [a[0]] + t;
      assert a == [a[0]] + a[1..];
      SplitCons(a[0], t, c);
      SplitCons(a[0], a[1..], c);
      SplitConcat(a[1..], c, b);
      var left, right := Split(a[1..], c), Split(b, c);
      if a[0] == c {
        calc {
          Split(a + [c] + b, c);
          [""] + (left + right);
          ([""] + left) + right;
          Split(a, c) + right;
        }
      } else {
        calc {
          Split(a + [c] + b, c);
          [[a[0]] + (left + right)[0]] + (left + right)[1..];
          { MergeFirst([a[0]], left, right); }
          [[a[0]] + left[0]] + left[1..] + right;
          Split(a, c) + right;
        }
      }
    }
  }

  /** Extending the first piece commutes with appending more pieces. */
  lemma MergeFirst(x: string, left: seq<string>, right: seq<string>)
    requires |left| >= 1
    ensures [x + (left + right)[0]] + (left + right)[1..] == [x + left[0]] + left[1..] + right
  {
    assert (left + right)[0] == left[0];
    assert (left + right)[1..] == left[1..] + right;
  }

  /** One step of `Split`: the first character either ends the first piece
      or joins it. */
  lemma SplitCons(x: char, t: string, c: char)
    ensures Split([x] + t, c) ==
      if x == c then [""] + Split(t, c) else [[x] + Split(t, c)[0]] + Split(t, c)[1..]
  {
    assert ([x] + t)[0] == x && ([x] + t)[1..] == t;
  }

  /** Round trip the other way: joining the pieces of `s` with `c` gives `s`. */
  lemma {:induction false} JoinSplit(s: string, c: char)
    ensures Join(Split(s, c), [c]) == s
    decreases |s|
  {
    if |s| > 0 {
      var rest := Split(s[1..], c);
      JoinSplit(s[1..], c);
      if s[0] == c {
        assert Join([""] + rest, [c]) == "" + [c] + Join(rest, [c]);
      } else if |rest| == 1 {
        assert Split(s, c) == [[s[0]] + rest[0]];
      } else {
        var r := Split(s, c);
        assert r == [[s[0]] + rest[0]] + rest[1..];
        assert r[1..] == rest[1..];
        assert Join(r, [c]) == [s[0]] + rest[0] + [c] + Join(rest[1..], [c]);
      }
      assert [s[0]] + s[1..] == s;
    }
  }

  /** Joining two non-empty runs of parts puts one separator between them. */
  lemma {:induction false} JoinConcat(x: seq<string>, y: seq<string>, sep: string)
    requires |x| > 0 && |y| > 0
    ensures Join(x + y, sep) == Join(x, sep) + sep + Join(y, sep)
    decreases |x|
  {
    if |x| == 1 {
      assert (x + y)[1..] == y;
    } else {
      assert (x + y)[1..] == x[1..] + y;
      JoinConcat(x[1..], y, sep);
    }
  }

  /** Part `k` of a join sits between the joins of the parts before it and
      after it, one separator on each side that has parts. */
  lemma JoinAround(parts: seq<string>, k: nat, sep: string)
    requires k < |parts|
    ensures Join(parts, sep) ==
              (if k == 0 then "" else Join(parts[..k], sep) + sep) +
              parts[k] +
              (if k == |parts| - 1 then "" else sep + Join(parts[k + 1..], sep))
  {
    var tail := parts[k..];
    assert Join(tail, sep) == parts[k] + (if k == |parts| - 1 then "" else sep + Join(parts[k + 1..], sep)) by {
      if k < |parts| - 1 {
        assert tail[1..] == parts[k + 1..];
      } else {
        assert tail == [parts[k]];
      }
    }
    if k > 0 {
      assert parts == parts[..k] + tail;
      JoinConcat(parts[..k], tail, sep);
    } else {
      assert tail == parts;
    }
  }
}

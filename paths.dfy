/** Path strings of the in-memory filesystem: Go's `strings.Split` and
    `strings.Join` on a one-character separator, the parent-key computation
    `getParent`, and the index key that `Mkdir` registers. All pure. */
module Paths {

  /** The separator every path of the filesystem uses. */
  const Sep: char := '/'

  /** Go's `strings.Split(s, "/")`: the pieces between separators, so a string
      with n separators yields n + 1 pieces, and "" yields [""]. */
  function Split(s: string): (parts: seq<string>)
    ensures |parts| >= 1
    ensures forall i :: 0 <= i < |parts| ==> Sep !in parts[i]
  {
    if s == [] then [""]
    else
      var rest := Split(s[1..]);
      if s[0] == Sep then [""] + rest
      else [[s[0]] + rest[0]] + rest[1..]
  }

  /** Go's `strings.Join(parts, "/")`: the first piece leads the result, and
      the n pieces are joined with n - 1 separators, so the result is at least
      that long. */
  function Join(parts: seq<string>): (s: string)
    ensures |parts| >= 1 ==> parts[0] <= s
    ensures |s| >= |parts| - 1
  {
    if |parts| == 0 then ""
    else if |parts| == 1 then parts[0]
    else parts[0] + [Sep] + Join(parts[1..])
  }

  /** The last segment of a split path: the name of the node it denotes. */
  function Last(parts: seq<string>): string
    requires |parts| >= 1
  {
    parts[|parts| - 1]
  }

  /** `getParent`: the index key of the directory holding the node whose
      segments are `nodePath`. It is always rooted, and for two or more
      segments, appending a separator and the node's own name to it gives the
      node's own index key. */
  function GetParent(nodePath: seq<string>): (p: string)
    ensures |p| >= 1 && p[0] == Sep
    ensures |nodePath| >= 2 ==> p + [Sep] + Last(nodePath) == IndexKey(nodePath)
  {
    if |nodePath| == 0 then "/"
    else if |nodePath| == 1 then "/"
    else
      JoinPrefix(nodePath);
      "/" + Join(nodePath[..|nodePath| - 1])
  }

  /** The index key under which `Mkdir` registers a new directory:
      `"/" + strings.Join(nodePath, "/")`. */
  function IndexKey(nodePath: seq<string>): string
  {
    "/" + Join(nodePath)
  }

  /** Joining the pieces of a split restores the string. */
  lemma {:induction false} JoinSplit(s: string)
    ensures Join(Split(s)) == s
  {
    if s != [] {
      JoinSplit(s[1..]);
      var rest := Split(s[1..]);
      if s[0] == Sep {
        assert Split(s) == [""] + rest;
        assert s == [Sep] + s[1..];
      } else {
        var parts := Split(s);
        assert parts[0] == [s[0]] + rest[0];
        if |rest| == 1 {
          assert parts == [[s[0]] + rest[0]];
        } else {
          assert parts[1..] == rest[1..];
          assert Join(rest) == rest[0] + [Sep] + Join(rest[1..]);
        }
      }
    }
  }

  /** Splitting a join of separator-free pieces gives the pieces back. */
  lemma {:induction false} SplitJoin(parts: seq<string>)
    requires |parts| >= 1
    requires forall i :: 0 <= i < |parts| ==> Sep !in parts[i]
    ensures Split(Join(parts)) == parts
  {
    if |parts| == 1 {
      SplitSegment(parts[0]);
    } else {
      SplitJoin(parts[1..]);
      SplitAfterSegment(parts[0], Join(parts[1..]));
      assert [parts[0]] + parts[1..] == parts;
    }
  }

  /** A separator-free string splits into itself. */
  lemma {:induction false} SplitSegment(seg: string)
    requires Sep !in seg
    ensures Split(seg) == [seg]
  {
    if seg != [] {
      SplitSegment(seg[1..]);
      assert [seg[0]] + seg[1..] == seg;
    }
  }

  /** Splitting `seg + "/" + rest` puts `seg` in front of the pieces of `rest`. */
  lemma {:induction false} SplitAfterSegment(seg: string, rest: string)
    requires Sep !in seg
    ensures Split(seg + [Sep] + rest) == [seg] + Split(rest)
  {
    if seg == [] {
      assert seg + [Sep] + rest == [Sep] + rest;
      assert ([Sep] + rest)[1..] == rest;
    } else {
      var s := seg + [Sep] + rest;
      assert s[1..] == seg[1..] + [Sep] + rest;
      SplitAfterSegment(seg[1..], rest);
      assert [seg[0]] + seg[1..] == seg;
    }
  }

  /** Creating `leaf` under a directory registered with `dirPath` looks the
      parent up under that directory's own index key; with `dirPath` empty,
      that is the root's key "/". */
  lemma {:induction false} ChildParentIsIndexKey(dirPath: seq<string>, leaf: string)
    ensures GetParent(dirPath + [leaf]) == IndexKey(dirPath)
  {
    assert (dirPath + [leaf])[..|dirPath|] == dirPath;
  }

  /** A split path's parent key, with its leading "/" dropped and split
      again, gives the path's segments without the last one. */
  lemma {:induction false} ParentKeyRoundTrip(nodePath: seq<string>)
    requires |nodePath| >= 2
    requires forall i :: 0 <= i < |nodePath| ==> Sep !in nodePath[i]
    ensures Split(GetParent(nodePath)[1..]) == nodePath[..|nodePath| - 1]
  {
    var prefix := nodePath[..|nodePath| - 1];
    assert GetParent(nodePath)[1..] == Join(prefix);
    SplitJoin(prefix);
  }

  /** The key `Mkdir` registers for a cleaned path `c` is "/" followed by all
      of `c` but its first character: `c` itself when `c` is rooted, and a
      path that has lost its first letter otherwise. */
  lemma MkdirKeyOfCleanPath(c: string)
    requires |c| >= 1
    ensures IndexKey(Split(c[1..])) == "/" + c[1..]
    ensures c[0] == '/' ==> IndexKey(Split(c[1..])) == c
  {
    JoinSplit(c[1..]);
    assert c == [c[0]] + c[1..];
  }

  /** The index key of a path coincides with its parent key only for the
      one-segment path [""], that is, only when the cleaned path is one
      character long (see `SingleEmptySegmentIff`). */
  lemma {:induction false} IndexKeyIsParentKeyIff(nodePath: seq<string>)
    requires |nodePath| >= 1
    ensures IndexKey(nodePath) == GetParent(nodePath) <==> nodePath == [""]
  {
    if |nodePath| >= 2 {
      JoinPrefix(nodePath);
      assert |IndexKey(nodePath)| > |GetParent(nodePath)|;
    } else {
      assert nodePath == [nodePath[0]];
      if nodePath[0] != "" {
        assert |IndexKey(nodePath)| > 1;
      }
    }
  }

  /** A cleaned path splits, after its first character is dropped, into the
      single empty segment [""] exactly when it is one character long: "/"
      (from "//"), "." (from "./") or a one-letter relative path such as "a". */
  lemma {:induction false} SingleEmptySegmentIff(c: string)
    requires |c| >= 1
    ensures Split(c[1..]) == [""] <==> |c| == 1
  {
    if |c| > 1 {
      JoinSplit(c[1..]);
      assert Join([""]) == "";
    }
  }

  /** Joining two or more segments is the join of all but the last, a
      separator, and the last. */
  lemma {:induction false} JoinPrefix(nodePath: seq<string>)
    requires |nodePath| >= 2
    ensures Join(nodePath) == Join(nodePath[..|nodePath| - 1]) + [Sep] + Last(nodePath)
  {
    if |nodePath| == 2 {
      assert nodePath[..1] == [nodePath[0]];
    } else {
      JoinPrefix(nodePath[1..]);
      assert nodePath[1..][..|nodePath| - 2] == nodePath[..|nodePath| - 1][1..];
    }
  }
}

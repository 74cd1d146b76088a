/** Strings split on and joined with '/', and the part of `pathlib.PurePosixPath`
    that the settings use: a path is a root flag and a list of components. */
module Paths {

  /** Python's `s.split("/")`: the pieces between the slashes, in order. */
  function Split(s: string): (parts: seq<string>)
    ensures |parts| >= 1
    ensures forall i :: 0 <= i < |parts| ==> '/' !in parts[i]
    ensures Join(parts) == s
  {
    if |s| == 0 then [""]
    else
      var rest := Split(s[1..]);
      if s[0] == '/' then [""] + rest
      else [[s[0]] + rest[0]] + rest[1..]
  }

  /** Python's `"/".join(parts)`. */
  function Join(parts: seq<string>): string
    requires |parts| >= 1
  {
    if |parts| == 1 then parts[0] else parts[0] + "/" + Join(parts[1..])
  }

  /** Joining peels off the last piece as well as the first. */
  lemma {:induction false} JoinLast(parts: seq<string>)
    requires |parts| >= 2
    ensures Join(parts) == Join(parts[..|parts| - 1]) + "/" + parts[|parts| - 1]
  {
    if |parts| > 2 {
      JoinLast(parts[1..]);
      assert parts[1..][..|parts| - 2] == parts[..|parts| - 1][1..];
    }
  }

  /** `r` is what follows the last '/' of `s`, or all of `s` when it has none. */
  ghost predicate IsLastSegment(s: string, r: string)
  {
    && '/' !in r
    && |r| <= |s|
    && s[|s| - |r|..] == r
    && (|r| == |s| || s[|s| - |r| - 1] == '/')
  }

  /** At most one string is the last segment of `s`. */
  lemma LastSegmentUnique(s: string, r1: string, r2: string)
    requires IsLastSegment(s, r1) && IsLastSegment(s, r2)
    ensures r1 == r2
  {
  }

  /** The last piece of a split is the last segment of the string. */
  lemma SplitLastIsLastSegment(s: string)
    ensures IsLastSegment(s, Split(s)[|Split(s)| - 1])
  {
    var parts := Split(s);
    if |parts| >= 2 {
      JoinLast(parts);
    }
  }

  /** Python's `s.split("/")[-1]`. */
  function LastSegment(s: string): (r: string)
    ensures IsLastSegment(s, r)
  {
    SplitLastIsLastSegment(s);
    var parts := Split(s);
    parts[|parts| - 1]
  }

  /** A `PurePosixPath`: whether it starts at the root, and its components,
      none of them empty, "." or containing '/'. */
  datatype Path = Path(absolute: bool, parts: seq<string>)

  ghost predicate IsComponent(name: string)
  {
    name != "" && name != "." && '/' !in name
  }

  ghost predicate ValidPath(p: Path)
  {
    forall i :: 0 <= i < |p.parts| ==> IsComponent(p.parts[i])
  }

  /** `p / name` for a `name` without '/': pathlib drops empty and "." components. */
  function Child(p: Path, name: string): (q: Path)
    requires '/' !in name
    ensures q.absolute == p.absolute
    ensures name == "" || name == "." ==> q == p
    ensures name != "" && name != "." ==> q.parts == p.parts + [name]
    ensures ValidPath(p) ==> ValidPath(q)
  {
    if name == "" || name == "." then p else Path(p.absolute, p.parts + [name])
  }

  /** `p.as_posix()`: "." for the empty relative path, "/" for the root. */
  function AsPosix(p: Path): string
  {
    if p.absolute then "/" + (if p.parts == [] then "" else Join(p.parts))
    else if p.parts == [] then "."
    else Join(p.parts)
  }

  /** A relative path of two components is written with one '/' between them. */
  lemma RelativePosix(folder: string, name: string)
    ensures AsPosix(Path(false, [folder, name])) == folder + "/" + name
  {
    assert [folder, name][1..] == [name];
    assert Join([name]) == name;
  }
}

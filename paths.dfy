/**
 * File-system paths as sequences of components, with the parts of Rust's
 * `std::path::Path` the program uses: `parent`, `file_name`, `file_stem`,
 * `extension`, `join`, display, and the order `Path` values sort in.
 */
module Paths {
  import opened Wrappers
  import opened Text
  import Sorting

  datatype Component = Root | Name(name: string)

  type Path = seq<Component>

  /**
   * The root appears only in front; names are non-empty, hold no '/' and
   * are not "." or "..", which Rust reads as the current and parent
   * directory rather than as names.
   */
  predicate WellFormed(p: Path)
  {
    forall i :: 0 <= i < |p| ==>
      (p[i].Root? ==> i == 0) && (p[i].Name? ==> p[i].name !in {"", ".", ".."} && '/' !in p[i].name)
  }

  /** `Path::parent`: the path without its last component; none for "" and "/". */
  function Parent(p: Path): Option<Path>
  {
    if |p| == 0 || p[|p| - 1].Root? then None else Some(p[..|p| - 1])
  }

  /** `Path::join` with one file or directory name. */
  function Child(p: Path, name: string): Path
  {
    p + [Name(name)]
  }

  /** `Path::file_name`: the last component when it is a name. */
  function FileName(p: Path): Option<string>
  {
    if |p| > 0 && p[|p| - 1].Name? then Some(p[|p| - 1].name) else None
  }

  lemma ChildParts(p: Path, name: string)
    ensures Parent(Child(p, name)) == Some(p)
    ensures FileName(Child(p, name)) == Some(name)
  {
    assert Child(p, name)[..|p|] == p;
  }

  function LastIndexOf(s: string, c: char): (r: Option<nat>)
    ensures r.Some? ==> r.value < |s| && s[r.value] == c && c !in s[r.value + 1..]
    ensures r.None? ==> c !in s
    decreases |s|
  {
    if |s| == 0 then None
    else if s[|s| - 1] == c then Some(|s| - 1)
    else
      var r := LastIndexOf(s[..|s| - 1], c);
      assert r.Some? ==> s[r.value + 1..] == s[..|s| - 1][r.value + 1..] + [s[|s| - 1]];
      assert r.None? ==> s == s[..|s| - 1] + [s[|s| - 1]];
      r
  }

  /**
   * Splits a file name at its last '.': the stem before it and the
   * extension after it. A name without a dot, or whose only dot is its first
   * character, is all stem.
   */
  function SplitAtDot(name: string): (string, Option<string>)
  {
    match LastIndexOf(name, '.')
    case None => (name, None)
    case Some(i) => if i == 0 then (name, None) else (name[..i], Some(name[i + 1..]))
  }

  /** Stem and extension put back together give the file name. */
  lemma SplitAtDotRejoin(name: string)
    ensures var (stem, ext) := SplitAtDot(name);
      (ext.None? ==> stem == name) && (ext.Some? ==> stem + "." + ext.value == name && stem != [] && '.' !in ext.value)
  {
    match LastIndexOf(name, '.')
    case None =>
    case Some(i) =>
      if i > 0 {
        assert name == name[..i] + "." + name[i + 1..];
      }
  }

  /** `Path::file_stem`. */
  function Stem(p: Path): Option<string>
  {
    match FileName(p)
    case None => None
    case Some(n) => Some(SplitAtDot(n).0)
  }

  /** `Path::extension`. */
  function Extension(p: Path): Option<string>
  {
    match FileName(p)
    case None => None
    case Some(n) => SplitAtDot(n).1
  }

  /** `extension().unwrap_or_default()`: the empty text when there is none. */
  function ExtensionOrEmpty(p: Path): string
  {
    Extension(p).UnwrapOr([])
  }

  function ComponentText(c: Component): string
  {
    if c.Root? then [] else c.name
  }

  /** Path text: names joined by '/', with a leading '/' for an absolute path. */
  function Display(p: Path): string
  {
    var names := seq(|p|, i requires 0 <= i < |p| => ComponentText(p[i]));
    if |p| > 0 && p[0].Root? then "/" + Join(names[1..], "/") else Join(names, "/")
  }

  function Codes(s: string): (r: seq<int>)
    ensures |r| == |s| && forall i :: 0 <= i < |s| ==> r[i] == s[i] as int && r[i] >= 0
  {
    seq(|s|, i requires 0 <= i < |s| => s[i] as int)
  }

  /**
   * Sort key of a path. `Path` compares component by component, the root
   * before any name and names by their text; ending each name with -1
   * (below every character) and writing the root as -2 makes that order
   * the lexicographic order of the keys.
   */
  function PathKey(p: Path): seq<int>
    decreases |p|
  {
    if p == [] then []
    else (if p[0].Root? then [-2] else Codes(p[0].name) + [-1]) + PathKey(p[1..])
  }

  predicate PathLe(a: Path, b: Path)
  {
    Sorting.LexLe(PathKey(a), PathKey(b))
  }
}

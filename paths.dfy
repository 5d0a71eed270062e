/** Abstract POSIX path functions standing in for Node's `path.join`,
    `path.resolve`, `path.dirname` and `path.basename`. Paths are plain
    strings with `/` as separator; normalisation (`.`, `..`, repeated or
    trailing separators) is not modelled. */
module Paths {

  const Separator: char := '/'

  /** `path.join(dir, name)` and `path.resolve(dir, name)` for a relative
      `name`. */
  function Join(dir: string, name: string): (p: string)
    ensures |p| == |dir| + 1 + |name|
    ensures p[..|dir|] == dir && p[|dir|] == Separator && p[|dir| + 1..] == name
  {
    dir + [Separator] + name
  }

  /** Index of the last separator in `p`, or -1 when there is none. */
  function LastSeparator(p: string): (i: int)
    ensures -1 <= i < |p|
    ensures i >= 0 ==> p[i] == Separator
    ensures forall j :: i < j < |p| ==> p[j] != Separator
  {
    if p == [] then -1
    else if p[|p| - 1] == Separator then |p| - 1
    else LastSeparator(p[..|p| - 1])
  }

  /** `path.basename(p)`: the text after the last separator. */
  function Basename(p: string): (b: string)
    ensures Separator !in b
    ensures |b| <= |p| && p[|p| - |b|..] == b
  {
    if p == [] || p[|p| - 1] == Separator then []
    else Basename(p[..|p| - 1]) + [p[|p| - 1]]
  }

  /** `path.dirname(p)`: the text before the last separator, `/` for a
      file at the root and `.` when there is no separator. */
  function Dirname(p: string): string
  {
    var i := LastSeparator(p);
    if i < 0 then "." else if i == 0 then [Separator] else p[..i]
  }

  /** Joining a directory with a single path segment can be undone:
      `dirname` gives the directory back and `basename` the segment. */
  lemma DirnameBasenameJoin(dir: string, name: string)
    requires dir != [] && Separator !in name
    ensures Dirname(Join(dir, name)) == dir
    ensures Basename(Join(dir, name)) == name
  {
    var p := Join(dir, name);
    var i := LastSeparator(p);
    assert i == |dir| by {
      if i < |dir| {
        assert p[|dir|] == Separator;
      }
    }
    BasenameAfterLast(p, i);
  }

  /** The basename is exactly the text after the last separator. */
  lemma {:induction false} BasenameAfterLast(p: string, i: int)
    requires i == LastSeparator(p)
    ensures Basename(p) == p[i + 1..]
    decreases |p|
  {
    if p != [] && p[|p| - 1] != Separator {
      var init := p[..|p| - 1];
      assert LastSeparator(init) == i;
      BasenameAfterLast(init, i);
      assert Basename(p) == init[i + 1..] + [p[|p| - 1]];
      assert init[i + 1..] + [p[|p| - 1]] == p[i + 1..];
    }
  }
}

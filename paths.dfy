/** The two pieces of Go's `path/filepath` (Unix separator) that the
    program relies on: `Base`, which keys every record, and `Join`, which
    builds the glob pattern and the output path. */
module Paths {

  const Separator: char := '/'

  /** `s` is a single path element: it holds no separator. */
  predicate NoSeparator(s: string)
  {
    forall i :: 0 <= i < |s| ==> s[i] != Separator
  }

  /** Drops every trailing separator. */
  function TrimTrailingSlashes(p: string): (r: string)
    ensures |r| <= |p| && r == p[..|r|]
    ensures r == [] || r[|r| - 1] != Separator
    ensures forall i :: |r| <= i < |p| ==> p[i] == Separator
  {
    if p != [] && p[|p| - 1] == Separator then TrimTrailingSlashes(p[..|p| - 1]) else p
  }

  /** The part of `p` after its last separator. */
  function LastElement(p: string): (r: string)
    ensures |r| <= |p| && r == p[|p| - |r|..]
    ensures NoSeparator(r)
    ensures |r| < |p| ==> p[|p| - |r| - 1] == Separator
  {
    if p == [] || p[|p| - 1] == Separator then []
    else LastElement(p[..|p| - 1]) + [p[|p| - 1]]
  }

  /** `filepath.Base`: "." for the empty path, "/" for a path of separators
      only, otherwise the last element once trailing separators are gone. */
  function Base(p: string): (r: string)
    ensures r != []
    ensures r == [Separator] || NoSeparator(r)
    ensures p == [] ==> r == "."
    ensures p != [] && TrimTrailingSlashes(p) == [] ==> r == [Separator]
    ensures var t := TrimTrailingSlashes(p);
            t != [] ==> |r| <= |t| && r == t[|t| - |r|..] && (|r| < |t| ==> t[|t| - |r| - 1] == Separator)
  {
    if p == [] then "."
    else
      var t := TrimTrailingSlashes(p);
      if t == [] then [Separator] else LastElement(t)
  }

  /** `filepath.Join(dir, name)` for a single element `name`: an empty
      directory contributes nothing; otherwise exactly one separator stands
      between the directory and the name. */
  function Join(dir: string, name: string): (r: string)
    ensures |r| >= |name| && r[|r| - |name|..] == name
    ensures dir == [] ==> r == name
    ensures dir != [] ==> |r| > |name| && r[|r| - |name| - 1] == Separator
    ensures dir != [] && |r| > |name| + 1 ==> r[|r| - |name| - 2] != Separator
    ensures dir != [] ==> var d := r[..|r| - |name| - 1];
              |d| <= |dir| && d == dir[..|d|] && forall i :: |d| <= i < |dir| ==> dir[i] == Separator
  {
    if dir == [] then name else TrimTrailingSlashes(dir) + [Separator] + name
  }

  /** The joined path is the plain concatenation around one separator
      when the directory has no trailing separator. */
  lemma JoinShape(dir: string, name: string)
    requires dir != [] && dir[|dir| - 1] != Separator
    ensures Join(dir, name) == dir + [Separator] + name
  {
    assert TrimTrailingSlashes(dir) == dir;
  }

  lemma {:induction false} LastElementAfterSeparator(prefix: string, name: string)
    requires NoSeparator(name)
    ensures LastElement(prefix + [Separator] + name) == name
  {
    var p := prefix + [Separator] + name;
    if name != [] {
      var front := name[..|name| - 1];
      assert p[..|p| - 1] == prefix + [Separator] + front;
      LastElementAfterSeparator(prefix, front);
      assert front + [name[|name| - 1]] == name;
    }
  }

  /** Base undoes Join: the base name of a joined path is the joined name. */
  lemma BaseOfJoin(dir: string, name: string)
    requires name != []
    requires NoSeparator(name)
    ensures Base(Join(dir, name)) == name
  {
    var j := Join(dir, name);
    if dir == [] {
      assert TrimTrailingSlashes(name) == name;
      LastElementOfPlain(name);
    } else {
      var d := TrimTrailingSlashes(dir);
      assert j[|j| - 1] == name[|name| - 1];
      assert TrimTrailingSlashes(j) == j;
      LastElementAfterSeparator(d, name);
    }
  }

  lemma LastElementOfPlain(name: string)
    requires NoSeparator(name)
    ensures LastElement(name) == name
  {
  }
}

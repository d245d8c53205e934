/** Go's `path.Base`, used to reduce a command line to the program name. */
module GoPath {
  import opened GoStrings

  /** The part of `p` after its last '/', or `p` itself when it has none. */
  function AfterLastSlash(p: string): (r: string)
    ensures '/' !in r
    ensures |r| <= |p| && r == p[|p| - |r|..]
    ensures r == p || p[|p| - |r| - 1] == '/'
  {
    if p == [] then []
    else if p[|p| - 1] == '/' then []
    else AfterLastSlash(p[..|p| - 1]) + [p[|p| - 1]]
  }

  /**
   * `path.Base`: the last element of a slash-separated path. Trailing
   * slashes are ignored; the empty path gives "." and a path of slashes "/".
   */
  function Base(p: string): (r: string)
    ensures r != []
    ensures r == "/" || '/' !in r
    ensures p == [] ==> r == "."
  {
    if p == [] then "."
    else
      var e := AfterLastSlash(TrimRightFunc(p, c => c == '/'));
      if e == [] then "/" else e
  }

  lemma {:induction false} AfterLastSlashOf(dir: string, name: string)
    requires '/' !in name
    ensures AfterLastSlash(dir + "/" + name) == name
    decreases |name|
  {
    var p := dir + "/" + name;
    if name != [] {
      assert p[..|p| - 1] == dir + "/" + name[..|name| - 1];
      AfterLastSlashOf(dir, name[..|name| - 1]);
      assert name[..|name| - 1] + [name[|name| - 1]] == name;
    }
  }

  lemma {:induction false} AfterLastSlashNone(name: string)
    requires '/' !in name
    ensures AfterLastSlash(name) == name
    decreases |name|
  {
    if name != [] {
      AfterLastSlashNone(name[..|name| - 1]);
      assert name[..|name| - 1] + [name[|name| - 1]] == name;
    }
  }

  /** The base of `dir/name` is `name`, and a bare name is its own base. */
  lemma BaseOfPath(dir: string, name: string)
    requires name != [] && '/' !in name
    ensures Base(dir + "/" + name) == name
    ensures Base(name) == name
  {
    var p := dir + "/" + name;
    assert p[|p| - 1] == name[|name| - 1];
    assert TrimRightFunc(p, c => c == '/') == p;
    AfterLastSlashOf(dir, name);
    assert TrimRightFunc(name, c => c == '/') == name;
    AfterLastSlashNone(name);
  }
}

/** Ruby's File.basename on POSIX paths (no suffix argument). */
module Paths {

  /** A single path component, as a directory listing yields it. */
  predicate FileName(name: string) {
    name != [] && '/' !in name
  }

  /** A path that is empty or ends in '/', so appending a name makes a child path. */
  predicate DirPrefix(p: string) {
    p == [] || p[|p| - 1] == '/'
  }

  function StripTrailingSlashes(p: string): (q: string)
    ensures |q| <= |p| && q == p[..|q|]
    ensures q == [] || q[|q| - 1] != '/'
    decreases |p|
  {
    if p != [] && p[|p| - 1] == '/' then StripTrailingSlashes(p[..|p| - 1]) else p
  }

  /** The text after the last '/'. */
  function AfterLastSlash(q: string): (r: string)
    ensures '/' !in r
    decreases |q|
  {
    if q == [] || q[|q| - 1] == '/' then [] else AfterLastSlash(q[..|q| - 1]) + [q[|q| - 1]]
  }

  /** File.basename: the last component, trailing slashes ignored; "/" for a path of slashes only. */
  function Basename(p: string): (r: string)
    ensures r == [] <==> p == []
    ensures '/' in r ==> r == "/"
  {
    var q := StripTrailingSlashes(p);
    if q == [] then (if p == [] then [] else "/") else AfterLastSlash(q)
  }

  lemma {:induction false} AfterLastSlashJoin(dir: string, name: string)
    requires DirPrefix(dir) && '/' !in name
    ensures AfterLastSlash(dir + name) == name
    decreases |name|
  {
    if name == [] {
      assert dir + name == dir;
    } else {
      var init := name[..|name| - 1];
      var p := dir + name;
      assert p[|p| - 1] == name[|name| - 1] != '/';
      assert p[..|p| - 1] == dir + init;
      assert AfterLastSlash(p) == AfterLastSlash(dir + init) + [name[|name| - 1]];
      AfterLastSlashJoin(dir, init);
      assert init + [name[|name| - 1]] == name;
    }
  }

  /** The basename of a child path is the child's own name, with or without a trailing '/'. */
  lemma BasenameOfChild(dir: string, name: string)
    requires DirPrefix(dir) && FileName(name)
    ensures Basename(dir + name) == name
    ensures Basename(dir + name + "/") == name
  {
    var p := dir + name;
    assert StripTrailingSlashes(p) == p;
    AfterLastSlashJoin(dir, name);
    assert (p + "/")[..|p + "/"| - 1] == p;
    assert StripTrailingSlashes(p + "/") == p;
  }
}

/** Path.GetFileName and Path.GetExtension on the paths Directory.GetFiles
    returns. Both '/' and '\\' separate directories, as on Windows. */
module Paths {

  predicate IsDirectorySeparator(c: char) {
    c == '/' || c == '\\'
  }

  /** Path.GetFileName: the part of the path after its last separator. */
  function FileName(path: string): (name: string)
    ensures |name| <= |path|
    decreases |path|
  {
    if path == [] || IsDirectorySeparator(path[|path| - 1]) then []
    else FileName(path[..|path| - 1]) + [path[|path| - 1]]
  }

  /** The file name is the path's last component: a suffix with no
      separator in it, preceded by a separator unless it is the whole path. */
  lemma {:induction false} FileNameIsLastComponent(path: string)
    ensures var name := FileName(path);
      && name == path[|path| - |name|..]
      && (forall i :: 0 <= i < |name| ==> !IsDirectorySeparator(name[i]))
      && (|name| < |path| ==> IsDirectorySeparator(path[|path| - |name| - 1]))
    decreases |path|
  {
    if path != [] && !IsDirectorySeparator(path[|path| - 1]) {
      var front := path[..|path| - 1];
      FileNameIsLastComponent(front);
      var f, name := FileName(front), FileName(path);
      assert name == f + [path[|path| - 1]];
      assert path[|path| - |name|..] == front[|front| - |f|..] + [path[|path| - 1]];
      forall i | 0 <= i < |name| ensures !IsDirectorySeparator(name[i]) {
        if i < |f| {
          assert name[i] == f[i];
        }
      }
      if |name| < |path| {
        assert path[|path| - |name| - 1] == front[|front| - |f| - 1];
      }
    }
  }

  /** The suffix of `s` from its last '.', or "" when `s` has no '.'. */
  function FromLastDot(s: string): (r: string)
    ensures |r| <= |s|
    decreases |s|
  {
    if s == [] then []
    else if s[|s| - 1] == '.' then ['.']
    else
      var r := FromLastDot(s[..|s| - 1]);
      if r == [] then [] else r + [s[|s| - 1]]
  }

  /** FromLastDot is empty exactly when there is no '.'. */
  lemma {:induction false} FromLastDotEmpty(s: string)
    ensures FromLastDot(s) == [] <==> '.' !in s
    decreases |s|
  {
    if s != [] && s[|s| - 1] != '.' {
      var front, c := s[..|s| - 1], s[|s| - 1];
      FromLastDotEmpty(front);
      assert s == front + [c];
    }
  }

  /** A non-empty FromLastDot is the suffix that starts at the last '.'. */
  lemma {:induction false} FromLastDotIsSuffix(s: string)
    requires FromLastDot(s) != []
    ensures FromLastDot(s) == s[|s| - |FromLastDot(s)|..]
    ensures FromLastDot(s)[0] == '.' && '.' !in FromLastDot(s)[1..]
    decreases |s|
  {
    if s[|s| - 1] == '.' {
      assert s[|s| - 1..] == ['.'];
    } else {
      var front, c := s[..|s| - 1], s[|s| - 1];
      var f := FromLastDot(front);
      FromLastDotIsSuffix(front);
      var r := f + [c];
      assert FromLastDot(s) == r;
      assert r[1..] == f[1..] + [c];
      assert s[|s| - |r|..] == front[|front| - |f|..] + [c];
    }
  }

  /** The extension of a file name: from its last '.' on, the dot included;
      "" when the name has no '.' or ends with one. */
  function NameExtension(name: string): (ext: string)
    ensures ext == [] <==> '.' !in name || name[|name| - 1] == '.'
    ensures ext != [] ==> 2 <= |ext| <= |name| && ext == name[|name| - |ext|..] && ext[0] == '.' && '.' !in ext[1..]
  {
    if name != [] && name[|name| - 1] == '.' then []
    else
      var ext := FromLastDot(name);
      FromLastDotEmpty(name);
      if ext != [] then
        FromLastDotIsSuffix(name);
        assert ext[|ext| - 1] == name[|name| - 1];
        ext
      else ext
  }

  /** Path.GetExtension: the extension of the path's file name. */
  function Extension(path: string): string {
    NameExtension(FileName(path))
  }
}

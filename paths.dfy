/** Windows paths as the backend builds them with `PathBuf::join`,
    `Path::parent`, `Path::file_name` and `PathBuf::set_extension`, over
    plain strings. Both `\` and `/` separate components. */
module Paths {
  import opened Wrappers
  import opened Text

  predicate IsSeparator(c: char) {
    c == '\\' || c == '/'
  }

  predicate NoSeparator(s: string) {
    forall k :: 0 <= k < |s| ==> !IsSeparator(s[k])
  }

  /** The position just after the last separator, 0 when there is none. */
  function NameStart(p: string): (i: nat)
    ensures i <= |p| && NoSeparator(p[i..])
    ensures i > 0 ==> IsSeparator(p[i - 1])
  {
    if p == [] then 0
    else if IsSeparator(p[|p| - 1]) then |p|
    else
      var i := NameStart(p[..|p| - 1]);
      assert p[i..] == p[..|p| - 1][i..] + [p[|p| - 1]];
      i
  }

  /** `PathBuf::join` of one relative component: a separator is added unless
      the base is empty or already ends with one. */
  function Join(base: string, part: string): (r: string)
    ensures StartsWith(r, base) && |r| >= |base| + |part|
    ensures r[|r| - |part|..] == part
  {
    if base == [] || IsSeparator(base[|base| - 1]) then base + part else base + "\\" + part
  }

  /** The file name the backend asks `Path::file_name` for: the text after
      the last separator, none when that text is empty or is `..`. This is
      `Path::file_name` on the paths the backend builds by joining plain
      names onto a directory (JoinThenSplit); std differs on a path that ends
      in a separator or in `.`, which it skips, and this model does not. */
  function FileName(p: string): (r: Option<string>)
    ensures r.Some? ==> r.value != [] && NoSeparator(r.value)
    ensures r.Some? ==> |r.value| <= |p| && p == p[..|p| - |r.value|] + r.value
  {
    var name := p[NameStart(p)..];
    if name == [] || name == ".." then None else Some(name)
  }

  /** The parent the backend asks `Path::parent` for: the path up to the
      last separator, none when there is no separator. This is `Path::parent`
      on the paths the backend builds by joining plain names onto a directory
      that does not end in a separator (JoinThenSplit); std differs on a
      single component (its parent is the empty path), on a root (no parent),
      on a child of a root (the root with its separator) and on a path that
      ends in a separator. */
  function Parent(p: string): (r: Option<string>)
    ensures r.Some? ==> |r.value| < |p| && StartsWith(p, r.value)
  {
    var i := NameStart(p);
    if i == 0 then None else Some(p[..i - 1])
  }

  /** Joining a plain name to a directory, then asking for the file name and
      the parent, gives both back. */
  lemma JoinThenSplit(base: string, part: string)
    requires base != [] && !IsSeparator(base[|base| - 1])
    requires part != [] && part != ".." && NoSeparator(part)
    ensures FileName(Join(base, part)) == Some(part)
    ensures Parent(Join(base, part)) == Some(base)
  {
    var p := Join(base, part);
    assert p == base + "\\" + part;
    NameStartAfter(base + "\\", part);
  }

  lemma {:induction false} NameStartAfter(dir: string, name: string)
    requires dir != [] && IsSeparator(dir[|dir| - 1]) && NoSeparator(name)
    ensures NameStart(dir + name) == |dir|
    decreases |name|
  {
    var p := dir + name;
    if name == [] {
      assert p == dir;
    } else {
      assert p[..|p| - 1] == dir + name[..|name| - 1];
      assert p[|p| - 1] == name[|name| - 1];
      NameStartAfter(dir, name[..|name| - 1]);
    }
  }

  /** `Path::file_stem` of a file name: the name up to its last `.`, or the
      whole name when it has no `.` or only a leading one. */
  function FileStem(name: string): (stem: string)
    ensures stem != [] ==> StartsWith(name, stem)
    ensures name != [] ==> stem != []
  {
    match LastIndexOfChar(name, '.')
    case Some(k) => if k > 0 then name[..k] else name
    case None => name
  }

  /** `PathBuf::set_extension(ext)`: everything after the stem of the file
      name is replaced by `.` + `ext`; a path without a file name is left as is. */
  function SetExtension(p: string, ext: string): string
  {
    match FileName(p)
    case None => p
    case Some(name) =>
      var stem := FileStem(name);
      p[..NameStart(p)] + stem + (if ext == [] then [] else "." + ext)
  }

  /** An archive named `x.7z` gets the marker `x.7z.aria2`: exactly the
      control file aria2 keeps beside a download it has not finished. */
  lemma {:induction false} MarkerOfSevenZip(p: string)
    requires FileName(p).Some?
    requires LastIndexOfChar(FileName(p).value, '.').Some?
    requires var name := FileName(p).value;
             var k := LastIndexOfChar(name, '.').value;
             k > 0 && name[k + 1..] == "7z"
    ensures SetExtension(p, "7z.aria2") == p + ".aria2"
  {
    var name := FileName(p).value;
    var k := LastIndexOfChar(name, '.').value;
    var dir := p[..NameStart(p)];
    var stem := FileStem(name);
    assert stem == name[..k];
    assert SetExtension(p, "7z.aria2") == dir + stem + ".7z.aria2";
    assert name == stem + ".7z";
    assert p == dir + name;
  }

  /** A file name with no extension gets `.7z.aria2` appended. */
  lemma {:induction false} MarkerOfBareName(p: string)
    requires FileName(p).Some? && '.' !in FileName(p).value
    ensures SetExtension(p, "7z.aria2") == p + ".7z.aria2"
  {
    var name := FileName(p).value;
    assert p == p[..NameStart(p)] + name;
  }
}

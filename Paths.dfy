// The std::filesystem::path decompositions the redaction uses to name its
// output, for POSIX paths with '/' as the only separator.
module Paths {
  function LastIndexOf(s: string, c: char): (r: int)
    ensures -1 <= r < |s|
    ensures r >= 0 ==> s[r] == c && forall j :: r < j < |s| ==> s[j] != c
    ensures r == -1 ==> forall j :: 0 <= j < |s| ==> s[j] != c
  {
    if |s| == 0 then -1
    else if s[|s| - 1] == c then |s| - 1
    else LastIndexOf(s[..|s| - 1], c)
  }

  /** path::filename: the text after the last separator. */
  function FileName(p: string): (r: string)
    ensures forall j :: 0 <= j < |r| ==> r[j] != '/'
  {
    var k := LastIndexOf(p, '/');
    if k < 0 then p else p[k + 1..]
  }

  function StripTrailingSlashes(s: string): (r: string)
    ensures |r| <= |s| && r == s[..|r|]
    ensures r == [] || r[|r| - 1] != '/'
  {
    if |s| > 0 && s[|s| - 1] == '/' then StripTrailingSlashes(s[..|s| - 1]) else s
  }

  /**
   * path::parent_path: the text before the last separator, without its
   * trailing separators; the root when only the root is left.
   */
  function ParentPath(p: string): string
  {
    var k := LastIndexOf(p, '/');
    if k < 0 then ""
    else
      var h := StripTrailingSlashes(p[..k]);
      if h == "" then "/" else h
  }

  /** The position of the dot that starts a file name's extension, or -1. */
  function ExtensionDot(fn: string): (r: int)
    ensures -1 <= r < |fn|
    ensures r >= 1 ==> fn[r] == '.'
  {
    if fn == "." || fn == ".." then -1
    else
      var d := LastIndexOf(fn, '.');
      if d <= 0 then -1 else d
  }

  /** path::stem: the file name up to its extension; "." and ".." and names like ".profile" are their own stem. */
  function Stem(fn: string): (r: string)
  {
    var d := ExtensionDot(fn);
    if d < 0 then fn else fn[..d]
  }

  /** path::extension: from the extension's dot to the end, or empty. */
  function Extension(fn: string): (r: string)
  {
    var d := ExtensionDot(fn);
    if d < 0 then "" else fn[d..]
  }

  /** The stem and the extension are the file name cut in two. */
  lemma StemExtension(fn: string)
    ensures Stem(fn) + Extension(fn) == fn
    ensures Extension(fn) == "" || Extension(fn)[0] == '.'
  {
  }

  /** operator/ on a relative right operand: a separator is added unless the left side is empty or ends in one. */
  function Join(dir: string, name: string): string
  {
    if dir == "" then name
    else if dir[|dir| - 1] == '/' then dir + name
    else dir + "/" + name
  }

  /** The output path: parent_path() / stem() += "_stripped" += extension(). */
  function OutputName(p: string): string
  {
    var fn := FileName(p);
    Join(ParentPath(p), Stem(fn)) + "_stripped" + Extension(fn)
  }

  /** The input is its directory part followed by its file name. */
  lemma InputSplits(p: string)
    ensures p == DirectoryPart(p) + FileName(p)
  {
    var k := LastIndexOf(p, '/');
    if k >= 0 {
      assert p == p[..k + 1] + p[k + 1..];
    }
  }

  /**
   * The output sits next to the input: when the last separator follows a
   * directory name, everything up to that separator is kept. With
   * InputSplits and StemExtension, the output is the input with "_stripped"
   * inserted before the extension.
   */
  lemma OutputNameBesideInput(p: string)
    requires var k := LastIndexOf(p, '/'); k >= 1 && p[k - 1] != '/'
    ensures OutputName(p) == DirectoryPart(p) + Stem(FileName(p)) + "_stripped" + Extension(FileName(p))
  {
    DirectoryIsParentSlash(p);
    JoinDirectory(ParentPath(p), DirectoryPart(p), Stem(FileName(p)));
  }

  lemma JoinDirectory(d: string, dir: string, name: string)
    requires d != [] && d[|d| - 1] != '/' && dir == d + "/"
    ensures Join(d, name) == dir + name
  {
  }

  /** When the last separator follows a directory name, the directory part is the parent path and that separator. */
  lemma DirectoryIsParentSlash(p: string)
    requires var k := LastIndexOf(p, '/'); k >= 1 && p[k - 1] != '/'
    ensures var d := ParentPath(p); d != [] && d[|d| - 1] != '/' && DirectoryPart(p) == d + "/"
  {
    var k := LastIndexOf(p, '/');
    ParentOfDirectory(p);
    assert p[..k + 1] == p[..k] + "/";
  }

  /** A bare file name gets a bare output name. */
  lemma BareOutputName(p: string)
    requires LastIndexOf(p, '/') < 0
    ensures OutputName(p) == Stem(p) + "_stripped" + Extension(p)
  {
  }

  /** When the last separator follows a directory name, the parent path is everything before that separator. */
  lemma ParentOfDirectory(p: string)
    requires var k := LastIndexOf(p, '/'); k >= 1 && p[k - 1] != '/'
    ensures ParentPath(p) == p[..LastIndexOf(p, '/')]
  {
    var d := p[..LastIndexOf(p, '/')];
    assert StripTrailingSlashes(d) == d;
  }

  /** The input up to and including its last separator. */
  function DirectoryPart(p: string): (r: string)
    ensures |r| <= |p| && r == p[..|r|]
  {
    var k := LastIndexOf(p, '/');
    if k < 0 then "" else p[..k + 1]
  }
}

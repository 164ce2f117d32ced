/**
 Path text helpers: `std::string::find_last_of(".")`, the extension taken by
 `identifyFileType`, and `removeExtension` (ObjectDetector.h).
 */
module Paths {
  import opened Wrappers

  /** Position of the last '.' in `s`, or `None` for `npos`. */
  function LastDot(s: string): (r: Option<nat>)
    ensures r.None? <==> '.' !in s
    ensures r.Some? ==> r.value < |s| && s[r.value] == '.' && '.' !in s[r.value + 1..]
  {
    if |s| == 0 then None
    else if s[|s| - 1] == '.' then Some(|s| - 1)
    else
      var r := LastDot(s[..|s| - 1]);
      assert s == s[..|s| - 1] + [s[|s| - 1]];
      if r.Some? then
        assert s[r.value + 1..] == s[..|s| - 1][r.value + 1..] + [s[|s| - 1]];
        r
      else r
  }

  /** The text after the last '.', when there is one. */
  function Extension(path: string): (e: Option<string>)
    ensures e.None? <==> '.' !in path
    ensures e.Some? ==> '.' !in e.value && |e.value| < |path|
    ensures e.Some? ==> path == path[..|path| - |e.value| - 1] + "." + e.value
  {
    match LastDot(path)
    case None => None
    case Some(i) =>
      assert path == path[..i] + "." + path[i + 1..];
      Some(path[i + 1..])
  }

  /**
   `removeExtension`: the input unchanged when it has no '.', otherwise the
   text strictly before its last '.'.
   */
  function RemoveExtension(filename: string): (r: string)
    ensures '.' !in filename ==> r == filename
    ensures '.' in filename ==>
              && |r| < |filename|
              && filename[..|r|] == r
              && filename[|r|] == '.'
              && '.' !in filename[|r| + 1..]
  {
    match LastDot(filename)
    case None => filename
    case Some(i) => filename[..i]
  }

  /** Stripping the extension and appending "." and the extension restores the path. */
  lemma RemoveExtensionRoundTrip(path: string)
    requires Extension(path).Some?
    ensures RemoveExtension(path) + "." + Extension(path).value == path
  {
    var i := LastDot(path).value;
    assert path == path[..i] + "." + path[i + 1..];
  }

  /** The extension of `stem + "." + ext` is `ext` whenever `ext` holds no '.'. */
  lemma ExtensionOfJoin(stem: string, ext: string)
    requires '.' !in ext
    ensures Extension(stem + "." + ext) == Some(ext)
  {
    var path := stem + "." + ext;
    assert path[|stem|] == '.';
    var i := LastDot(path).value;
    assert path[i + 1..] == ext;
  }
}

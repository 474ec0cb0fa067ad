/** Util: the extension of a file path and its replacement, by the last '.' of the path. */
module PathUtil {
  import opened Results

  /** String.lastIndexOf: the largest index holding `ch`, or -1 when there is none. */
  function LastIndexOf(s: string, ch: char): (i: int)
    ensures -1 <= i < |s|
    ensures i >= 0 ==> s[i] == ch && forall j :: i < j < |s| ==> s[j] != ch
    ensures i == -1 <==> forall j :: 0 <= j < |s| ==> s[j] != ch
  {
    if s == [] then -1
    else if s[|s| - 1] == ch then |s| - 1
    else LastIndexOf(s[..|s| - 1], ch)
  }

  /** getExtension: the text after the last '.', or null (None) if there is no '.' or it ends the path. */
  function GetExtension(path: string): (ext: Option<string>)
    ensures ext.Some? ==> |ext.value| < |path|
  {
    var lastPoint := LastIndexOf(path, '.');
    if lastPoint == -1 || lastPoint == |path| - 1 then None
    else Some(path[lastPoint + 1..])
  }

  /** replaceExtension: the path through its last '.', then the new extension; unchanged without one. */
  function ReplaceExtension(filePath: string, newExtension: string): string
  {
    var lastPointIndex := LastIndexOf(filePath, '.');
    if lastPointIndex == -1 || lastPointIndex == |filePath| - 1 then filePath
    else filePath[..lastPointIndex + 1] + newExtension
  }

  /** There is no extension exactly when the path has no '.' or ends with '.'. */
  lemma GetExtensionNone(path: string)
    ensures GetExtension(path).None? <==>
      (forall j :: 0 <= j < |path| ==> path[j] != '.') || path[|path| - 1] == '.'
  {
  }

  /**
   * An extension is non-empty, holds no '.', and is what follows the last '.':
   * the path is a prefix, a '.', and the extension.
   */
  lemma GetExtensionSome(path: string)
    requires GetExtension(path).Some?
    ensures var ext := GetExtension(path).value;
      && ext != []
      && (forall j :: 0 <= j < |ext| ==> ext[j] != '.')
      && path == path[..|path| - |ext| - 1] + "." + ext
  {
    var i := LastIndexOf(path, '.');
    var ext := path[i + 1..];
    forall j | 0 <= j < |ext| ensures ext[j] != '.' {
      assert ext[j] == path[i + 1 + j];
    }
    assert path == path[..i] + [path[i]] + ext;
  }

  /** Without an extension the path is returned unchanged. */
  lemma ReplaceWithoutExtension(path: string, newExtension: string)
    requires GetExtension(path).None?
    ensures ReplaceExtension(path, newExtension) == path
  {
  }

  /** With an extension the result is the path through its last '.', followed by the new extension. */
  lemma ReplaceWithExtension(path: string, newExtension: string)
    requires GetExtension(path).Some?
    ensures var prefix := path[..|path| - |GetExtension(path).value|];
      && prefix != [] && prefix[|prefix| - 1] == '.'
      && ReplaceExtension(path, newExtension) == prefix + newExtension
  {
    GetExtensionSome(path);
  }

  lemma {:induction false} LastIndexOfAfterDotFree(prefix: string, e: string, ch: char)
    requires prefix != [] && prefix[|prefix| - 1] == ch
    requires forall j :: 0 <= j < |e| ==> e[j] != ch
    ensures LastIndexOf(prefix + e, ch) == |prefix| - 1
    decreases |e|
  {
    if e != [] {
      var s := prefix + e;
      assert s[..|s| - 1] == prefix + e[..|e| - 1];
      LastIndexOfAfterDotFree(prefix, e[..|e| - 1], ch);
    } else {
      assert prefix + e == prefix;
    }
  }

  /** Replacing an extension by a non-empty dot-free one, then reading it back, gives that one. */
  lemma ReplaceThenGet(path: string, newExtension: string)
    requires GetExtension(path).Some?
    requires newExtension != [] && forall j :: 0 <= j < |newExtension| ==> newExtension[j] != '.'
    ensures GetExtension(ReplaceExtension(path, newExtension)) == Some(newExtension)
  {
    var i := LastIndexOf(path, '.');
    var prefix := path[..i + 1];
    LastIndexOfAfterDotFree(prefix, newExtension, '.');
    assert (prefix + newExtension)[i + 1..] == newExtension;
  }

  /** Replacing an extension by itself gives the path back. */
  lemma ReplaceByOwnExtension(path: string)
    requires GetExtension(path).Some?
    ensures ReplaceExtension(path, GetExtension(path).value) == path
  {
    var i := LastIndexOf(path, '.');
    assert path[..i + 1] + path[i + 1..] == path;
  }
}

/**
 The two string helpers of PHP that the Dropbox adapter leans on:
 `ltrim($s, '/')` (drop every leading slash) and `dirname($path)`.
 */
module Paths {

  /** ltrim(s, '/'): s without its maximal leading run of '/'. */
  function LtrimSlashes(s: string): (r: string)
    ensures |r| <= |s| && (r == [] || r[0] != '/')
  {
    if s != [] && s[0] == '/' then LtrimSlashes(s[1..]) else s
  }

  /** What ltrim removes is a run of slashes at the front, and what it keeps is the rest of s. */
  lemma {:induction false} LtrimSlashesDropsSlashRun(s: string)
    ensures var r := LtrimSlashes(s);
      && r == s[|s| - |r|..]
      && forall i :: 0 <= i < |s| - |r| ==> s[i] == '/'
  {
    if s != [] && s[0] == '/' {
      LtrimSlashesDropsSlashRun(s[1..]);
      var r := LtrimSlashes(s);
      assert forall i :: 1 <= i < |s| - |r| ==> s[i] == s[1..][i - 1];
    }
  }

  /** Stripping leading slashes a second time changes nothing. */
  lemma LtrimSlashesIdempotent(s: string)
    ensures LtrimSlashes(LtrimSlashes(s)) == LtrimSlashes(s)
  {
  }

  /** Any leading run of slashes, however short, leads to the same result. */
  lemma {:induction false} LtrimSlashesSkipsSlashes(s: string, n: nat)
    requires n <= |s|
    requires forall i :: 0 <= i < n ==> s[i] == '/'
    ensures LtrimSlashes(s[n..]) == LtrimSlashes(s)
  {
    if n > 0 {
      assert s[1..][n - 1..] == s[n..];
      LtrimSlashesSkipsSlashes(s[1..], n - 1);
    }
  }

  /**
   dirname(path): the part before the last '/', or "." when there is no '/'.
   PHP's dirname agrees on non-empty paths without trailing or repeated slashes
   whose only '/' is not the first character (PHP gives "/" for "/a", this gives
   ""); keys() strips leading slashes before it asks for a dirname.
   */
  function Dirname(path: string): string
  {
    if path == [] then "."
    else if path[|path| - 1] == '/' then path[..|path| - 1]
    else Dirname(path[..|path| - 1])
  }

  /** The dirname is the prefix ending just before the last '/' of the path, or "." if it has none. */
  lemma {:induction false} DirnameIsParent(path: string)
    ensures '/' in path ==>
      var d := Dirname(path);
      && |d| < |path| && d == path[..|d|] && path[|d|] == '/'
      && '/' !in path[|d| + 1..]
    ensures '/' !in path ==> Dirname(path) == "."
  {
    if path != [] && path[|path| - 1] != '/' {
      var init := path[..|path| - 1];
      assert path == init + [path[|path| - 1]];
      DirnameIsParent(init);
      if '/' in path {
        var d := Dirname(init);
        assert path[|d| + 1..] == init[|d| + 1..] + [path[|path| - 1]];
      }
    }
  }
}

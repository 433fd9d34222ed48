/** Node's `path.basename` and `path.extname` (the POSIX flavour, the one
    the API server runs with), used to strip directories from image names and
    to keep the extension of an uploaded file. */
module Paths {

  /** Index of the last `c` in `s`, or -1. */
  function LastIndexOf(s: string, c: char): (r: int)
    ensures -1 <= r < |s|
    ensures r >= 0 ==> s[r] == c
    ensures forall k :: r < k < |s| ==> s[k] != c
    decreases |s|
  {
    if s == [] then -1
    else if s[|s| - 1] == c then |s| - 1
    else LastIndexOf(s[..|s| - 1], c)
  }

  /** `p` without its trailing run of '/'. */
  function StripTrailingSlashes(p: string): (r: string)
    ensures r <= p
    ensures r == [] || r[|r| - 1] != '/'
    ensures forall k :: |r| <= k < |p| ==> p[k] == '/'
    decreases |p|
  {
    if p != [] && p[|p| - 1] == '/' then StripTrailingSlashes(p[..|p| - 1]) else p
  }

  /** `path.basename(p)`: the last non-empty segment of `p` ('' when `p` is
      empty or all slashes). */
  function Basename(p: string): (r: string)
    ensures '/' !in r
    ensures '/' !in p ==> r == p
  {
    var q := StripTrailingSlashes(p);
    var i := LastIndexOf(q, '/');
    assert '/' !in p ==> q == p;
    q[i + 1..]
  }

  /** The basename is the end of `p` once its trailing slashes are gone,
      starting right after a '/' or at the start of `p`. */
  lemma BasenameIsLastSegment(p: string)
    ensures var q := StripTrailingSlashes(p);
            var r := Basename(p);
            |r| <= |q| && r == q[|q| - |r|..] && (|r| < |q| ==> q[|q| - |r| - 1] == '/')
  {
  }

  /** `path.extname(p)`: from the last '.' of the basename to its end, unless
      that dot starts the basename (".profile") or the basename is "..". */
  function Extname(p: string): (r: string)
    ensures var b := Basename(p);
            |r| < |b| || r == []
    ensures r == [] || (r[0] == '.' && '.' !in r[1..] && '/' !in r)
    ensures var b := Basename(p);
            |r| <= |b| && r == b[|b| - |r|..]
    ensures var b := Basename(p);
            r != [] <==> b != ".." && exists k :: 0 < k < |b| && b[k] == '.'
  {
    var b := Basename(p);
    var d := LastIndexOf(b, '.');
    if d <= 0 || b == ".." then ""
    else b[d..]
  }
}

/** The PHP string built-ins the front cache builds its file names with, each as
    DooFrontCache uses it. Strings are sequences of characters; no encoding is modelled. */
module Strings {

  /** The character `str_replace('/', '-', ...)` leaves in place of `c`. */
  function Dash(c: char): char
  {
    if c == '/' then '-' else c
  }

  /** `str_replace('/', '-', s)`: every slash becomes a dash, every other character stays. */
  function ReplaceSlashes(s: string): (r: string)
    ensures |r| == |s|
    ensures forall i :: 0 <= i < |s| ==> r[i] == Dash(s[i])
    ensures '/' !in r
  {
    if s == [] then [] else [Dash(s[0])] + ReplaceSlashes(s[1..])
  }

  /** Replacing slashes works character by character, so it distributes over concatenation. */
  lemma {:induction false} ReplaceSlashesConcat(a: string, b: string)
    ensures ReplaceSlashes(a + b) == ReplaceSlashes(a) + ReplaceSlashes(b)
  {
    if a == [] {
      assert a + b == b;
    } else {
      assert (a + b)[1..] == a[1..] + b;
      ReplaceSlashesConcat(a[1..], b);
    }
  }

  /** A string without slashes is left as it is. */
  lemma ReplaceSlashesKeepsSlashFree(s: string)
    requires '/' !in s
    ensures ReplaceSlashes(s) == s
  {
  }

  /** `if ($s[strlen($s)-1] == '/') $s = substr($s, 0, strlen($s)-1);`
      One trailing slash, and only one, is removed. */
  function StripTrailingSlash(s: string): (r: string)
    requires |s| > 0
    ensures r <= s
    ensures |r| == |s| - 1 <==> s[|s| - 1] == '/'
    ensures |r| >= |s| - 1
  {
    if s[|s| - 1] == '/' then s[..|s| - 1] else s
  }

  /** `if (strpos($s, '/') === 0) $s = substr($s, 1, strlen($s));`
      One leading slash, and only one, is removed. */
  function StripLeadingSlash(s: string): (r: string)
    ensures |s| - |r| == if |s| > 0 && s[0] == '/' then 1 else 0
    ensures r == s[|s| - |r|..]
  {
    if |s| > 0 && s[0] == '/' then s[1..] else s
  }

  /** `substr($s, 0, strlen($s)-1)`: the string without its last character; the empty
      string stays empty (PHP gives "" or false there, which `str_replace` turns into ""). */
  function DropLast(s: string): (r: string)
    ensures r <= s
    ensures |r| == if s == [] then 0 else |s| - 1
  {
    if s == [] then s else s[..|s| - 1]
  }

  /** `strpos($s, $p) === 0`: `s` begins with `p` (an empty `p` matches, as in PHP 8). */
  predicate StartsWith(s: string, p: string)
    ensures StartsWith(s, p) <==> |p| <= |s| && s[..|p|] == p
    ensures p == [] ==> StartsWith(s, p)
  {
    p <= s
  }
}

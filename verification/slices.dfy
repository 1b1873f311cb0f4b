/** The two Python slices the program applies to names and tables. */
module Slices {
  /** `s[:n]`: the first `n` elements, or all of `s` when it is shorter. */
  function Truncate<T>(s: seq<T>, n: nat): (r: seq<T>)
    ensures |r| == if |s| <= n then |s| else n
    ensures r == s[..|r|]
  {
    if |s| <= n then s else s[..n]
  }

  /** `s[:-1]`: everything but the last element; empty stays empty. */
  function DropLast<T>(s: seq<T>): (r: seq<T>)
    ensures |s| == 0 ==> r == []
    ensures |s| > 0 ==> |r| == |s| - 1 && s == r + [s[|s| - 1]]
  {
    if |s| == 0 then s else s[..|s| - 1]
  }
}

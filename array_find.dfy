/** The first-match search of JavaScript's `Array.prototype.find`, stated as the index of
    the first element that satisfies a predicate. */
module ArrayFind {
  import opened Wrappers

  /** `i` is the position of the first element of `s` satisfying `p`. */
  ghost predicate IsFirst<T>(s: seq<T>, p: T -> bool, i: int) {
    0 <= i < |s| && p(s[i]) && forall k :: 0 <= k < i ==> !p(s[k])
  }

  /** The index of the element `find` returns, or None when it returns `undefined`: the
      index it yields is the first match, and it yields one whenever some element matches. */
  function FirstIndex<T>(s: seq<T>, p: T -> bool): (r: Option<nat>)
    ensures forall i :: IsFirst(s, p, i) <==> r == Some(i)
    ensures r.None? <==> forall k :: 0 <= k < |s| ==> !p(s[k])
  {
    if |s| == 0 then None
    else if p(s[0]) then Some(0)
    else match FirstIndex(s[1..], p)
      case None => None
      case Some(i) => Some(i + 1)
  }

  /** What follows the first match is never consulted. */
  lemma FirstIndexIgnoresTail<T>(s: seq<T>, p: T -> bool, i: int, rest: seq<T>)
    requires IsFirst(s, p, i)
    ensures FirstIndex(s[..i + 1] + rest, p) == Some(i)
  {
  }
}

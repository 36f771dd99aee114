/** `Array.prototype.filter` as the server route and the page use it, and the facts that pin its
    result down: the kept elements, each once, in their original order. */
module Seqs {

  /** Number of elements of `s` that satisfy `p`. */
  function Count<T>(s: seq<T>, p: T -> bool): (n: nat)
    ensures n <= |s|
  {
    if s == [] then 0 else Count(s[..|s| - 1], p) + (if p(s[|s| - 1]) then 1 else 0)
  }

  /** `s.filter(p)`. */
  function Filter<T>(s: seq<T>, p: T -> bool): (r: seq<T>)
    ensures |r| == Count(s, p)
    ensures forall k :: 0 <= k < |r| ==> p(r[k]) && r[k] in s
  {
    if s == [] then []
    else
      var r := Filter(s[..|s| - 1], p);
      assert forall k :: 0 <= k < |r| ==> r[k] in s[..|s| - 1] ==> r[k] in s;
      if p(s[|s| - 1]) then r + [s[|s| - 1]] else r
  }

  /** The element at position `j` of `s` that `p` keeps is the element at
      position (number of kept elements before `j`) of the filtered sequence:
      together with the length fact this says that the result is exactly the
      kept elements, each once, in their original order. */
  lemma {:induction false} FilterAt<T>(s: seq<T>, p: T -> bool, j: nat)
    requires j < |s| && p(s[j])
    ensures Count(s[..j], p) < |Filter(s, p)|
    ensures Filter(s, p)[Count(s[..j], p)] == s[j]
  {
    var init := s[..|s| - 1];
    if j < |s| - 1 {
      assert init[..j] == s[..j];
      FilterAt(init, p, j);
    } else {
      assert s[..j] == init;
    }
  }

  /** Filtering with a predicate that every element already satisfies changes nothing. */
  lemma {:induction false} FilterAllKept<T>(s: seq<T>, p: T -> bool)
    requires forall k :: 0 <= k < |s| ==> p(s[k])
    ensures Filter(s, p) == s
  {
    if s != [] {
      FilterAllKept(s[..|s| - 1], p);
      assert s[..|s| - 1] + [s[|s| - 1]] == s;
    }
  }
}

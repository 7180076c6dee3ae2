/** List helpers shared by the catalog modules. */
module Lists {

  predicate NoDuplicates<T(==)>(s: seq<T>)
  {
    forall i, j :: 0 <= i < j < |s| ==> s[i] != s[j]
  }

  /** The distinct elements in order of first occurrence. */
  function Unique<T(==,!new)>(s: seq<T>): (r: seq<T>)
    ensures NoDuplicates(r)
    ensures forall x :: x in r <==> x in s
  {
    if |s| == 0 then []
    else
      var front, last := Unique(s[..|s| - 1]), s[|s| - 1];
      assert forall x :: x in s <==> x in s[..|s| - 1] || x == last;
      if last in front then front else front + [last]
  }

  /** The positions of first occurrences, in order. */
  ghost predicate FirstsAt<T(!new)>(s: seq<T>, r: seq<T>, at: seq<nat>)
  {
    && |at| == |r|
    && (forall k :: 0 <= k < |at| ==> at[k] < |s| && s[at[k]] == r[k] && r[k] !in s[..at[k]])
    && (forall k, l :: 0 <= k < l < |at| ==> at[k] < at[l])
  }

  lemma FirstsKept<T(!new)>(s: seq<T>, x: T, r: seq<T>, at: seq<nat>)
    requires FirstsAt(s, r, at)
    ensures FirstsAt(s + [x], r, at)
  {
    assert forall k :: 0 <= k < |at| ==> (s + [x])[..at[k]] == s[..at[k]];
  }

  lemma FirstsSnoc<T(!new)>(s: seq<T>, x: T, r: seq<T>, at: seq<nat>)
    requires FirstsAt(s, r, at) && x !in s
    ensures FirstsAt(s + [x], r + [x], at + [|s|])
  {
    FirstsKept(s, x, r, at);
    assert (s + [x])[..|s|] == s;
  }

  lemma {:induction false} UniqueIsOrdered<T(!new)>(s: seq<T>) returns (at: seq<nat>)
    ensures FirstsAt(s, Unique(s), at)
  {
    if |s| == 0 {
      at := [];
    } else {
      var front, last := s[..|s| - 1], s[|s| - 1];
      at := UniqueIsOrdered(front);
      assert front + [last] == s;
      if last in Unique(front) {
        FirstsKept(front, last, Unique(front), at);
      } else {
        FirstsSnoc(front, last, Unique(front), at);
        at := at + [|front|];
      }
    }
  }
}

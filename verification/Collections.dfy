/** The elements of a sequence, how many there are, and placing one more among them. */
module Collections {

  function Elements<T(!new)>(s: seq<T>): (e: set<T>)
    ensures forall x :: x in e <==> x in s
  {
    set x | x in s
  }

  /** No element stands twice. */
  predicate Distinct<T(==)>(s: seq<T>) {
    forall i, j :: 0 <= i < j < |s| ==> s[i] != s[j]
  }

  lemma {:induction false} Counted<T(!new)>(s: seq<T>)
    requires Distinct(s)
    ensures |Elements(s)| == |s|
  {
    if s != [] {
      var last := |s| - 1;
      Counted(s[..last]);
      assert s == s[..last] + [s[last]];
      assert Elements(s) == Elements(s[..last]) + {s[last]};
    }
  }

  /** `x` put before the first element it precedes: one step of an insertion sort. */
  function Placed<T(==, !new)>(s: seq<T>, x: T, precedes: T -> bool): (more: seq<T>)
    ensures |more| == |s| + 1
    ensures forall y :: y in more <==> y in s || y == x
  {
    if s == [] || precedes(s[0]) then [x] + s else [s[0]] + Placed(s[1..], x, precedes)
  }

  /** In the order of `at`, equals allowed. */
  predicate Ascending<T(!new)>(s: seq<T>, at: T -> int) {
    forall i, j :: 0 <= i < j < |s| ==> at(s[i]) <= at(s[j])
  }
}

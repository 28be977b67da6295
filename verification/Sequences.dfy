/** Sequence facts the component models share. */
module Sequences {

  lemma Assoc<T>(a: seq<T>, b: seq<T>, c: seq<T>)
    ensures a + (b + c) == (a + b) + c
  {
  }

  function Concat<T>(parts: seq<seq<T>>): seq<T> {
    if parts == [] then [] else parts[0] + Concat(parts[1..])
  }

  lemma {:induction false} ConcatAppend<T>(a: seq<seq<T>>, b: seq<seq<T>>)
    ensures Concat(a + b) == Concat(a) + Concat(b)
  {
    if a == [] {
      assert a + b == b;
    } else {
      assert (a + b)[1..] == a[1..] + b;
      ConcatAppend(a[1..], b);
      Assoc(a[0], Concat(a[1..]), Concat(b));
    }
  }

  lemma ConcatFirst<T>(first: seq<T>, rest: seq<seq<T>>)
    ensures Concat([first] + rest) == first + Concat(rest)
  {
    assert ([first] + rest)[1..] == rest;
  }

  lemma ConcatSingle<T>(part: seq<T>)
    ensures Concat([part]) == part
  {
    assert Concat([part]) == part + Concat([]);
  }

  /** A slice of a slice, counted from the outer start. */
  lemma SliceOfSlice<T>(s: seq<T>, start: nat, end: nat, lo: nat, hi: nat)
    requires start <= end <= |s| && lo <= hi <= end - start
    ensures s[start..end][lo..hi] == s[start + lo..start + hi]
  {
    var outer := s[start..end];
    forall k | 0 <= k < hi - lo ensures outer[lo..hi][k] == s[start + lo..start + hi][k] {
      assert outer[lo..hi][k] == outer[lo + k];
    }
  }
}

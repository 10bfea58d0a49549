/** Small shared vocabulary: an optional value, the two ends of a list, and duplicate-freedom of a sequence. */
module Util {

  /** The conventional Some/None datatype, used where the C code returns NULL or a token count. */
  datatype Option<T> = None | Some(value: T)

  /** No element occurs twice. */
  predicate Distinct<T(==)>(s: seq<T>) {
    forall j, k :: 0 <= j < k < |s| ==> s[j] != s[k]
  }

  /** The elements of a sequence, as a set. */
  function Elems<T>(s: seq<T>): set<T> {
    set x | x in s
  }

  /** The last element of a non-empty list and everything before it. */
  function Init<T>(s: seq<T>): seq<T> requires s != [] { s[..|s| - 1] }
  function Last<T>(s: seq<T>): T requires s != [] { s[|s| - 1] }

  /** A sequence is empty exactly when its set of elements is. */
  lemma EmptyElems<T>(s: seq<T>)
    ensures Elems(s) == {} <==> s == []
  {
    if s != [] {
      assert s[0] in Elems(s);
    }
  }

  /** A duplicate-free sequence has as many elements as its set. */
  lemma {:induction false} DistinctCard<T>(s: seq<T>)
    requires Distinct(s)
    ensures |Elems(s)| == |s|
  {
    if s != [] {
      assert Distinct(s[1..]);
      DistinctCard(s[1..]);
      assert Elems(s) == {s[0]} + Elems(s[1..]);
      assert s[0] !in Elems(s[1..]);
    }
  }
}

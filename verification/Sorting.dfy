/** Python's `sorted` with a numeric key, as a function on sequences. */
module Sorting {
  predicate Ascending<T>(s: seq<T>, key: T -> real) {
    forall i, j | 0 <= i < j < |s| :: key(s[i]) <= key(s[j])
  }

  function Insert<T>(x: T, s: seq<T>, key: T -> real): (r: seq<T>)
    ensures |r| == |s| + 1
  {
    if s == [] || key(x) < key(s[0]) then [x] + s else [s[0]] + Insert(x, s[1..], key)
  }

  function Sorted<T>(s: seq<T>, key: T -> real): (r: seq<T>)
    ensures |r| == |s|
  {
    if s == [] then [] else Insert(s[|s| - 1], Sorted(s[..|s| - 1], key), key)
  }

  lemma {:induction false} InsertKeeps<T>(x: T, s: seq<T>, key: T -> real)
    ensures multiset(Insert(x, s, key)) == multiset(s) + multiset{x}
  {
    if s != [] && key(x) >= key(s[0]) {
      InsertKeeps(x, s[1..], key);
      assert s == [s[0]] + s[1..];
    }
  }

  lemma {:induction false} InsertAscending<T>(x: T, s: seq<T>, key: T -> real)
    requires Ascending(s, key)
    ensures Ascending(Insert(x, s, key), key)
    ensures Insert(x, s, key)[0] == x || (s != [] && Insert(x, s, key)[0] == s[0] && key(s[0]) <= key(x))
  {
    if s != [] && key(x) >= key(s[0]) {
      InsertAscending(x, s[1..], key);
    } else {
      assert s != [] ==> forall j | 0 <= j < |s| :: key(s[0]) <= key(s[j]);
    }
  }

  /** `sorted` yields the same elements in ascending order. */
  lemma {:induction false} SortedMeaning<T>(s: seq<T>, key: T -> real)
    ensures Ascending(Sorted(s, key), key) && multiset(Sorted(s, key)) == multiset(s)
  {
    if s != [] {
      var front, x := s[..|s| - 1], s[|s| - 1];
      SortedMeaning(front, key);
      InsertAscending(x, Sorted(front, key), key);
      InsertKeeps(x, Sorted(front, key), key);
      assert s == front + [x];
    }
  }
}

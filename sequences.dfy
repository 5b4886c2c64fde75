/** Sequence helpers standing for the array methods the client code uses
    (`filter`/`includes`, `reverse`). */
module Sequences {

  /** No element occurs twice. */
  ghost predicate Distinct<T>(s: seq<T>) {
    forall i, j :: 0 <= i < j < |s| ==> s[i] != s[j]
  }

  /** `r` is `s` with some elements deleted, the rest kept in their order. */
  predicate IsSubsequence<T(==)>(r: seq<T>, s: seq<T>)
    decreases |s|
  {
    if r == [] then true
    else if s == [] then false
    else if r[0] == s[0] then IsSubsequence(r[1..], s[1..])
    else IsSubsequence(r, s[1..])
  }

  /** `s.filter((x) => !drop.includes(x))`: the elements of `s` that are not in `drop`,
      in the order of `s`. */
  function Except<T(==,!new)>(s: seq<T>, drop: seq<T>): (r: seq<T>)
    ensures forall x :: x in r <==> x in s && x !in drop
    ensures IsSubsequence(r, s)
    ensures |r| <= |s|
  {
    if s == [] then []
    else if s[0] in drop then Except(s[1..], drop)
    else [s[0]] + Except(s[1..], drop)
  }

  /** Every element kept is kept as often as it occurs: the filter removes the dropped
      elements and nothing else. */
  lemma {:induction false} ExceptCounts<T(!new)>(s: seq<T>, drop: seq<T>, x: T)
    ensures multiset(Except(s, drop))[x] == if x in drop then 0 else multiset(s)[x]
  {
    if s != [] {
      assert s == [s[0]] + s[1..];
      ExceptCounts(s[1..], drop, x);
    }
  }

  lemma {:induction false} ExceptKeepsDistinct<T(!new)>(s: seq<T>, drop: seq<T>)
    requires Distinct(s)
    ensures Distinct(Except(s, drop))
  {
    if s != [] {
      ExceptKeepsDistinct(s[1..], drop);
      assert forall j :: 0 <= j < |s[1..]| ==> s[1..][j] != s[0];
    }
  }

  /** Concatenating two duplicate-free sequences with no common element gives a
      duplicate-free sequence. */
  lemma DisjointConcatDistinct<T>(a: seq<T>, b: seq<T>)
    requires Distinct(a) && Distinct(b)
    requires forall x :: x in b ==> x !in a
    ensures Distinct(a + b)
  {
    forall i, j | 0 <= i < j < |a + b| ensures (a + b)[i] != (a + b)[j] {
      if i < |a| && |a| <= j {
        assert (a + b)[j] == b[j - |a|] && b[j - |a|] in b;
      }
    }
  }

  /** `array.reverse()`, as a value: the last element first. */
  function Reverse<T>(s: seq<T>): (r: seq<T>)
    ensures |r| == |s|
    ensures forall i :: 0 <= i < |s| ==> r[i] == s[|s| - 1 - i]
  {
    if s == [] then [] else [s[|s| - 1]] + Reverse(s[..|s| - 1])
  }

  /** Reversing a sequence extended on the right puts the new element first. */
  lemma ReverseSnoc<T>(e: seq<T>, x: T)
    ensures Reverse(e + [x]) == [x] + Reverse(e)
  {
    assert (e + [x])[..|e|] == e;
  }

  /** Moving the element at `i` from the tail `s[i..]` to the end of the middle part. */
  lemma ShiftOne<T>(a: seq<T>, b: seq<T>, s: seq<T>, i: int)
    requires 0 <= i < |s|
    ensures a + b + s[i..] == a + (b + [s[i]]) + s[i + 1..]
  {
    assert s[i..] == [s[i]] + s[i + 1..];
  }
}

/** Small value types and sequence helpers shared by the modules of the dashboard model. */
module Collections {

  /** An optional value: the model of a nullable field (`string | null`, `number | null`). */
  datatype Option<+T> = None | Some(value: T)

  /** The sequence in the opposite order: `slice().reverse()` on an array. */
  function Reverse<T>(s: seq<T>): (r: seq<T>)
    ensures |r| == |s|
    ensures forall i :: 0 <= i < |s| ==> r[i] == s[|s| - 1 - i]
  {
    if s == [] then [] else Reverse(s[1..]) + [s[0]]
  }

  /** `r` is `s` with some elements left out, the others kept in their order. */
  predicate IsSubsequence<T(==)>(r: seq<T>, s: seq<T>)
    decreases |s|
  {
    if r == [] then true
    else if s == [] then false
    else (r[0] == s[0] && IsSubsequence(r[1..], s[1..])) || IsSubsequence(r, s[1..])
  }

  /** Keeping the first element and a subsequence of the rest is a subsequence. */
  lemma ConsSubsequence<T>(x: T, r: seq<T>, s: seq<T>)
    requires IsSubsequence(r, s)
    ensures IsSubsequence([x] + r, [x] + s)
  {
    assert ([x] + r)[1..] == r && ([x] + s)[1..] == s;
  }

  /** Dropping the first element and keeping a subsequence of the rest is a subsequence. */
  lemma {:induction false} SkipSubsequence<T>(x: T, r: seq<T>, s: seq<T>)
    requires IsSubsequence(r, s)
    ensures IsSubsequence(r, [x] + s)
  {
    assert ([x] + s)[1..] == s;
  }

  /** A subsequence stays one when an element is appended to the whole sequence. */
  lemma {:induction false} SnocSkipSubsequence<T>(r: seq<T>, s: seq<T>, x: T)
    requires IsSubsequence(r, s)
    ensures IsSubsequence(r, s + [x])
    decreases |s|
  {
    if r != [] {
      assert (s + [x])[0] == s[0] && (s + [x])[1..] == s[1..] + [x];
      if r[0] == s[0] && IsSubsequence(r[1..], s[1..]) {
        SnocSkipSubsequence(r[1..], s[1..], x);
      } else {
        SnocSkipSubsequence(r, s[1..], x);
      }
    }
  }

  /** The last element alone is a subsequence. */
  lemma {:induction false} LastSubsequence<T>(s: seq<T>, x: T)
    ensures IsSubsequence([x], s + [x])
    decreases |s|
  {
    if s == [] {
      assert [x][1..] == [];
    } else {
      assert (s + [x])[1..] == s[1..] + [x];
      LastSubsequence(s[1..], x);
    }
  }

  /** Appending the same element to a subsequence and to the whole keeps a subsequence. */
  lemma {:induction false} SnocKeepSubsequence<T>(r: seq<T>, s: seq<T>, x: T)
    requires IsSubsequence(r, s)
    ensures IsSubsequence(r + [x], s + [x])
    decreases |s|
  {
    if r == [] {
      LastSubsequence(s, x);
      assert r + [x] == [x];
    } else {
      assert (s + [x])[0] == s[0] && (s + [x])[1..] == s[1..] + [x];
      assert (r + [x])[0] == r[0] && (r + [x])[1..] == r[1..] + [x];
      if r[0] == s[0] && IsSubsequence(r[1..], s[1..]) {
        SnocKeepSubsequence(r[1..], s[1..], x);
      } else {
        SnocKeepSubsequence(r, s[1..], x);
      }
    }
  }

  /** The middle part of a concatenation of three sequences is the second one. */
  lemma Middle<T>(a: seq<T>, b: seq<T>, c: seq<T>)
    ensures |a| <= |a + b + c| - |c| && (a + b + c)[|a|..|a + b + c| - |c|] == b
  {
  }

  /** A set other than the empty set has an element. */
  lemma NonEmptyHasElement(keys: set<int>)
    ensures keys == {} || exists x :: x in keys
  {
    if forall x :: x !in keys {
      assert keys == {};
    }
  }
}

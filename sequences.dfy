/** Generic facts about sequences: duplicate-freedom and order-preserving subsequences. */
module Sequences {

  /** No element occurs twice in `s`. */
  ghost predicate NoDuplicates<T>(s: seq<T>) {
    forall i, j :: 0 <= i < j < |s| ==> s[i] != s[j]
  }

  /** `s` can be obtained from `f` by deleting elements, keeping the order of the rest. */
  ghost predicate IsSubsequence<T>(s: seq<T>, f: seq<T>)
    decreases |f|
  {
    if s == [] then true
    else if f == [] then false
    else (s[0] == f[0] && IsSubsequence(s[1..], f[1..])) || IsSubsequence(s, f[1..])
  }

  lemma NoDuplicatesCons<T>(x: T, s: seq<T>)
    ensures NoDuplicates([x] + s) <==> x !in s && NoDuplicates(s)
  {
    var xs := [x] + s;
    if x !in s && NoDuplicates(s) {
      forall i, j | 0 <= i < j < |xs| ensures xs[i] != xs[j] {
        if i == 0 {
          assert xs[j] == s[j - 1];
        } else {
          assert xs[i] == s[i - 1] && xs[j] == s[j - 1];
        }
      }
    }
    if NoDuplicates(xs) {
      forall k | 0 <= k < |s| ensures s[k] != x {
        assert xs[0] != xs[k + 1];
      }
      forall i, j | 0 <= i < j < |s| ensures s[i] != s[j] {
        assert s[i] == xs[i + 1] && s[j] == xs[j + 1];
      }
    }
  }

  lemma {:induction false} SubsequenceMembers<T>(s: seq<T>, f: seq<T>)
    requires IsSubsequence(s, f)
    ensures forall x :: x in s ==> x in f
    decreases |f|
  {
    if s != [] {
      if s[0] == f[0] && IsSubsequence(s[1..], f[1..]) {
        SubsequenceMembers(s[1..], f[1..]);
        assert forall x :: x in s ==> x == s[0] || x in s[1..];
      } else {
        SubsequenceMembers(s, f[1..]);
      }
    }
  }

  lemma {:induction false} SubsequenceTransitive<T>(a: seq<T>, b: seq<T>, c: seq<T>)
    requires IsSubsequence(a, b) && IsSubsequence(b, c)
    ensures IsSubsequence(a, c)
    decreases |c|
  {
    if a != [] {
      assert b != [] && c != [];
      if b[0] == c[0] && IsSubsequence(b[1..], c[1..]) {
        if a[0] == b[0] && IsSubsequence(a[1..], b[1..]) {
          SubsequenceTransitive(a[1..], b[1..], c[1..]);
        } else {
          SubsequenceTransitive(a, b[1..], c[1..]);
        }
      } else {
        SubsequenceTransitive(a, b, c[1..]);
      }
    }
  }

  lemma {:induction false} SubsequenceNoDuplicates<T>(s: seq<T>, f: seq<T>)
    requires IsSubsequence(s, f) && NoDuplicates(f)
    ensures NoDuplicates(s)
    decreases |f|
  {
    if s != [] {
      NoDuplicatesCons(f[0], f[1..]);
      assert [f[0]] + f[1..] == f;
      if s[0] == f[0] && IsSubsequence(s[1..], f[1..]) {
        SubsequenceNoDuplicates(s[1..], f[1..]);
        SubsequenceMembers(s[1..], f[1..]);
        NoDuplicatesCons(s[0], s[1..]);
        assert [s[0]] + s[1..] == s;
      } else {
        SubsequenceNoDuplicates(s, f[1..]);
      }
    }
  }
}

/** Sequence helpers: turning a set into an ordered sequence (what ORDER BY
    does to the rows of a table) and first-occurrence de-duplication (what
    `Array.from(new Set(xs))` does in JavaScript). */
module Seqs {

  predicate NoDuplicates<T(==)>(s: seq<T>)
  {
    forall i, j :: 0 <= i < j < |s| ==> s[i] != s[j]
  }

  lemma {:induction false} NoDuplicatesCount<T>(s: seq<T>, x: T)
    requires NoDuplicates(s)
    ensures multiset(s)[x] <= 1
  {
    if s != [] {
      assert s == [s[0]] + s[1..];
      NoDuplicatesCount(s[1..], x);
      if s[0] == x {
        assert x !in s[1..];
      }
    }
  }

  /** A permutation of a sequence without duplicates has none either. */
  lemma PermutationKeepsNoDuplicates<T>(a: seq<T>, b: seq<T>)
    requires NoDuplicates(a) && multiset(a) == multiset(b)
    ensures NoDuplicates(b)
  {
    forall i, j | 0 <= i < j < |b| ensures b[i] != b[j] {
      if b[i] == b[j] {
        assert b == b[..j] + [b[j]] + b[j + 1..];
        assert b[i] in b[..j];
        assert multiset(b)[b[i]] >= 2;
        NoDuplicatesCount(a, b[i]);
      }
    }
  }

  ghost predicate StrictTotalOrder<T(!new)>(lt: (T, T) -> bool)
  {
    && (forall a :: !lt(a, a))
    && (forall a, b, c :: lt(a, b) && lt(b, c) ==> lt(a, c))
    && (forall a, b :: a == b || lt(a, b) || lt(b, a))
  }

  predicate IsLeast<T(==)>(m: T, s: set<T>, lt: (T, T) -> bool)
  {
    m in s && forall x :: x in s && x != m ==> lt(m, x)
  }

  lemma {:induction false} LeastExists<T(!new)>(s: set<T>, lt: (T, T) -> bool)
    requires s != {} && StrictTotalOrder(lt)
    ensures exists m :: IsLeast(m, s, lt)
  {
    var x :| x in s;
    if s == {x} {
      assert IsLeast(x, s, lt);
    } else {
      LeastExists(s - {x}, lt);
      var m :| IsLeast(m, s - {x}, lt);
      if lt(m, x) {
        assert IsLeast(m, s, lt);
      } else {
        assert IsLeast(x, s, lt);
      }
    }
  }

  /** The elements of `s` in increasing `lt` order. */
  function SortedFromSet<T(==, !new)>(s: set<T>, lt: (T, T) -> bool): (r: seq<T>)
    requires StrictTotalOrder(lt)
    ensures |r| == |s|
    ensures forall x :: x in r <==> x in s
    ensures forall i, j :: 0 <= i < j < |r| ==> lt(r[i], r[j])
    decreases |s|
  {
    if s == {} then []
    else
      LeastExists(s, lt);
      var m :| IsLeast(m, s, lt);
      [m] + SortedFromSet(s - {m}, lt)
  }

  /** The position of the first occurrence of `x` in `s`. */
  function IndexOf<T(==)>(s: seq<T>, x: T): (k: nat)
    requires x in s
    ensures k < |s| && s[k] == x
    ensures forall j :: 0 <= j < k ==> s[j] != x
  {
    if s[0] == x then 0 else 1 + IndexOf(s[1..], x)
  }

  /** The elements of `s` not in `seen`, each once, at its first occurrence:
      inserting them one by one into a JavaScript Set that already holds `seen`. */
  function DedupFrom<T(==, !new)>(s: seq<T>, seen: set<T>): (r: seq<T>)
    ensures NoDuplicates(r)
    ensures forall x :: x in r <==> x in s && x !in seen
    ensures forall i, j :: 0 <= i < j < |r| ==> IndexOf(s, r[i]) < IndexOf(s, r[j])
  {
    if s == [] then []
    else if s[0] in seen then DedupFrom(s[1..], seen)
    else [s[0]] + DedupFrom(s[1..], seen + {s[0]})
  }

  /** `Array.from(new Set(s))`. */
  function Dedup<T(==, !new)>(s: seq<T>): (r: seq<T>)
    ensures NoDuplicates(r)
    ensures forall x :: x in r <==> x in s
    ensures forall i, j :: 0 <= i < j < |r| ==> IndexOf(s, r[i]) < IndexOf(s, r[j])
  {
    DedupFrom(s, {})
  }
}

/** Facts about finite sets and sequences used by the walks' termination and uniqueness arguments. */
module Sets {

  predicate Distinct<T(==)>(s: seq<T>)
  {
    forall i, j :: 0 <= i < j < |s| ==> s[i] != s[j]
  }

  /** The elements of a sequence. */
  function Elems<T>(s: seq<T>): set<T>
  {
    set x | x in s
  }

  /** The position of the first occurrence of `x` in `s`, or `|s|` when there is none. */
  function IndexOf<T(==)>(s: seq<T>, x: T): (i: nat)
    ensures i <= |s|
    ensures i < |s| <==> x in s
    ensures i < |s| ==> s[i] == x && x !in s[..i]
  {
    if s == [] then 0
    else if s[0] == x then 0
    else
      var j := IndexOf(s[1..], x);
      assert j < |s| - 1 ==> s[1..][..j] == s[1..j + 1];
      1 + j
  }

  /** The elements of a prefix are elements of the sequence. */
  lemma PrefixIn<T>(s: seq<T>, k: nat)
    requires k <= |s|
    ensures forall x :: x in s[..k] ==> x in s
  {
    forall x | x in s[..k]
      ensures x in s
    {
      var i :| 0 <= i < k && s[..k][i] == x;
      assert s[i] in s;
    }
  }

  /** An element of a prefix is first found inside that prefix. */
  lemma IndexOfPrefix<T>(s: seq<T>, x: T, k: nat)
    requires k <= |s| && x in s[..k]
    ensures IndexOf(s, x) < k
  {
    var j :| 0 <= j < k && s[..k][j] == x;
    assert s[j] == x;
  }

  /** In a sequence without repetitions, an element's position is its first position. */
  lemma IndexOfDistinct<T>(s: seq<T>, k: nat)
    requires Distinct(s) && k < |s|
    ensures IndexOf(s, s[k]) == k
  {
    assert s[k] in s;
  }

  /** A subset is no larger than its superset. */
  lemma {:induction false} SubsetCardinality<T>(a: set<T>, b: set<T>)
    requires a <= b
    ensures |a| <= |b|
    decreases |b|
  {
    if a != {} {
      var x :| x in a;
      SubsetCardinality(a - {x}, b - {x});
    }
  }

  /** A proper subset is smaller than its superset. */
  lemma StrictSubsetCardinality<T>(a: set<T>, b: set<T>)
    requires a < b
    ensures |a| < |b|
  {
    assert b - a != {};
    var x :| x in b - a;
    SubsetCardinality(a, b - {x});
  }
}

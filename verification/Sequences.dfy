/** Facts about sequences that several parts of the model share. */
module Sequences {

  predicate Distinct<T(==)>(p: seq<T>) {
    forall i, j :: 0 <= i < j < |p| ==> p[i] != p[j]
  }

  ghost function Elements<T>(p: seq<T>): set<T> {
    set x | x in p
  }

  function Rotate<T>(c: seq<T>, k: nat): seq<T>
    requires k <= |c|
  {
    c[k..] + c[..k]
  }

  lemma RotateElements<T>(c: seq<T>, k: nat)
    requires k <= |c|
    ensures multiset(Rotate(c, k)) == multiset(c)
    ensures forall x :: x in Rotate(c, k) <==> x in c
  {
    assert c == c[..k] + c[k..];
  }

  lemma RotateDistinct<T>(c: seq<T>, k: nat)
    requires k <= |c| && Distinct(c)
    ensures Distinct(Rotate(c, k))
  {
    var r := Rotate(c, k);
    forall i, j | 0 <= i < j < |r| ensures r[i] != r[j] {
      var i' := if i < |c| - k then i + k else i - (|c| - k);
      var j' := if j < |c| - k then j + k else j - (|c| - k);
      assert r[i] == c[i'] && r[j] == c[j'] && i' != j';
    }
  }

  lemma {:induction false} DistinctFits<T>(p: seq<T>, S: set<T>)
    requires Distinct(p) && forall x :: x in p ==> x in S
    ensures |p| <= |S|
  {
    if |p| > 0 {
      var last := p[|p| - 1];
      var q := p[..|p| - 1];
      forall x | x in q ensures x in S - {last} {
        var i :| 0 <= i < |q| && q[i] == x;
        assert p[i] != p[|p| - 1];
      }
      DistinctFits(q, S - {last});
    }
  }

  lemma StrictlySmaller<T>(a: set<T>, b: set<T>)
    requires a < b
    ensures |a| < |b|
  {
    assert b == a + (b - a);
    assert |b| == |a| + |b - a|;
  }

  lemma CutElements<T>(es: seq<T>, k: nat)
    requires k < |es|
    ensures multiset(es[..k] + es[k + 1..]) == multiset(es) - multiset{es[k]}
  {
    var a, b := es[..k], es[k + 1..];
    assert es == a + ([es[k]] + b);
  }

  lemma InsertElements<T>(es: seq<T>, k: nat, x: T)
    requires k <= |es|
    ensures multiset(es[..k] + [x] + es[k..]) == multiset(es) + multiset{x}
  {
    assert es == es[..k] + es[k..];
  }

  lemma TwiceCounts<T>(es: seq<T>, i: nat, j: nat)
    requires i < j < |es| && es[i] == es[j]
    ensures multiset(es)[es[i]] >= 2
  {
    CutElements(es, j);
    assert (es[..j] + es[j + 1..])[i] == es[i];
    assert es[i] in multiset(es[..j] + es[j + 1..]);
  }

  predicate Descending<T>(s: seq<T>, key: T -> int) {
    forall i, j :: 0 <= i < j < |s| ==> key(s[i]) >= key(s[j])
  }

  /** A descending arrangement is unique when no two elements have the same key. */
  lemma {:induction false} DescendingIsUnique<T>(a: seq<T>, b: seq<T>, key: T -> int)
    requires multiset(a) == multiset(b) && Descending(a, key) && Descending(b, key)
    requires forall x, y :: x in a && y in a && key(x) == key(y) ==> x == y
    ensures a == b
  {
    assert |multiset(a)| == |a| && |multiset(b)| == |b|;
    if a != [] {
      SameFirst(a, b, key);
      TailFacts(a, key);
      TailFacts(b, key);
      DescendingIsUnique(a[1..], b[1..], key);
    }
  }

  lemma TailFacts<T>(a: seq<T>, key: T -> int)
    requires a != [] && Descending(a, key)
    ensures a == [a[0]] + a[1..] && multiset(a[1..]) == multiset(a) - multiset{a[0]}
    ensures Descending(a[1..], key) && forall x :: x in a[1..] ==> x in a
  {
    TailElements(a);
    var b := a[1..];
    forall i, j | 0 <= i < j < |b| ensures key(b[i]) >= key(b[j]) {
      assert b[i] == a[i + 1] && b[j] == a[j + 1];
    }
  }

  lemma TailElements<T>(a: seq<T>)
    requires a != []
    ensures a == [a[0]] + a[1..] && multiset(a[1..]) == multiset(a) - multiset{a[0]}
  {
    assert a == [a[0]] + a[1..];
  }

  lemma SameFirst<T>(a: seq<T>, b: seq<T>, key: T -> int)
    requires multiset(a) == multiset(b) && Descending(a, key) && Descending(b, key) && a != [] && b != []
    requires forall x, y :: x in a && y in a && key(x) == key(y) ==> x == y
    ensures a[0] == b[0]
  {
    assert a[0] in multiset(b) && b[0] in multiset(a);
    var i :| 0 <= i < |b| && b[i] == a[0];
    var j :| 0 <= j < |a| && a[j] == b[0];
    assert key(b[0]) >= key(b[i]) && key(a[0]) >= key(a[j]);
  }

  lemma WrapsOnce(a: nat, n: nat)
    requires a < 2 * n
    ensures a % n == if a < n then a else a - n
  {
  }
}

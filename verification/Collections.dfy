/** Facts about finite sets and sequences. */
module Collections {

  lemma {:induction false} SubsetSize<T>(a: set<T>, b: set<T>)
    requires a <= b
    ensures |a| <= |b|
    decreases b
  {
    if b != {} {
      var x :| x in b;
      SubsetSize(a - {x}, b - {x});
    }
  }

  lemma SubsetOfSameSize<T>(a: set<T>, b: set<T>)
    requires a <= b && |a| == |b|
    ensures a == b
  {
    if a != b {
      assert !(b <= a);
      var x :| x in b && x !in a;
      SubsetSize(a, b - {x});
    }
  }

  lemma SomeElement<T>(s: set<T>) returns (x: T)
    requires |s| >= 1
    ensures x in s
  {
    x :| x in s;
  }

  ghost predicate NoDup<T>(xs: seq<T>) {
    forall i, j :: 0 <= i < j < |xs| ==> xs[i] != xs[j]
  }

  ghost function Members<T>(xs: seq<T>): set<T> {
    set x | x in xs
  }

  lemma {:induction false} NoDupSize<T>(xs: seq<T>)
    requires NoDup(xs)
    ensures |Members(xs)| == |xs|
  {
    if xs != [] {
      var k := |xs| - 1;
      NoDupSize(xs[..k]);
      assert xs == xs[..k] + [xs[k]];
      assert xs[k] !in xs[..k];
      assert Members(xs) == Members(xs[..k]) + {xs[k]};
    }
  }

  lemma TakeNext<T>(xs: seq<T>, k: nat)
    requires k < |xs|
    ensures xs[..k + 1] == xs[..k] + [xs[k]]
  {
  }

  lemma TakeAll<T>(xs: seq<T>, k: nat)
    requires k == |xs|
    ensures xs[..k] == xs
  {
  }

  lemma SplitLast<T>(xs: seq<T>)
    requires xs != []
    ensures xs == xs[..|xs| - 1] + [xs[|xs| - 1]]
  {
  }

  lemma TakeOfTake<T>(xs: seq<T>, m: nat, k: nat)
    requires k <= m <= |xs|
    ensures xs[..m][..k] == xs[..k]
  {
  }
}

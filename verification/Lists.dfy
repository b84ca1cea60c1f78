/** Lists of numbers without repetitions, and lists of one element repeated. */
module Lists {
  import opened Wrappers

  function Copies<T>(x: T, n: nat): seq<T> {
    if n == 0 then [] else Copies(x, n - 1) + [x]
  }

  lemma {:induction false} CopiesAreCopies<T>(x: T, n: nat)
    ensures |Copies(x, n)| == n && forall y :: y in Copies(x, n) ==> y == x
  {
    if n > 0 {
      CopiesAreCopies(x, n - 1);
    }
  }

  predicate Distinct(xs: seq<int>) {
    forall i, j :: 0 <= i < j < |xs| ==> xs[i] != xs[j]
  }

  predicate Disjoint(xs: seq<int>, ys: seq<int>) {
    forall x :: x in xs ==> x !in ys
  }

  function Elems(xs: seq<int>): set<int> {
    set x | x in xs
  }

  lemma OneMore(xs: seq<int>, k: nat)
    requires k < |xs|
    ensures Distinct(xs[..k + 1]) <==> Distinct(xs[..k]) && xs[k] !in xs[..k]
    ensures Elems(xs[..k + 1]) == Elems(xs[..k]) + {xs[k]}
    ensures xs[k] in xs && xs[k] in Elems(xs) && (xs[k] in xs[..k] || xs[k] in Elems(xs[..k]) ==> !Distinct(xs))
  {
    assert xs[..k + 1] == xs[..k] + [xs[k]];
    if xs[k] in xs[..k] {
      var i :| 0 <= i < k && xs[i] == xs[k];
      assert xs[..k + 1][i] == xs[..k + 1][k] && xs[i] == xs[k];
    }
    if Distinct(xs[..k + 1]) {
      forall i, j | 0 <= i < j < k
        ensures xs[..k][i] != xs[..k][j]
      {
        assert xs[..k + 1][i] != xs[..k + 1][j];
      }
    }
  }

  lemma DisjointFromItself(xs: seq<int>)
    ensures Disjoint(xs, xs) <==> xs == []
  {
    if xs != [] {
      var x := xs[0];
      assert x in xs;
    }
  }

  // ---------- several lists ----------

  function AllOf(lists: seq<seq<int>>, n: nat): set<int>
    requires n <= |lists|
  {
    if n == 0 then {} else AllOf(lists, n - 1) + Elems(lists[n - 1])
  }

  ghost predicate Pairwise(lists: seq<seq<int>>, n: nat)
    requires n <= |lists|
  {
    forall j, k :: 0 <= j < k < n ==> Disjoint(lists[j], lists[k])
  }

  lemma {:induction false} FoundInOne(lists: seq<seq<int>>, n: nat, x: int)
    requires n <= |lists|
    ensures x in AllOf(lists, n) <==> exists j :: 0 <= j < n && x in lists[j]
  {
    if n > 0 {
      FoundInOne(lists, n - 1, x);
    }
  }

  lemma PairwiseStep(lists: seq<seq<int>>, k: nat)
    requires k < |lists| && Pairwise(lists, k)
    ensures Pairwise(lists, k + 1) <==> Elems(lists[k]) !! AllOf(lists, k)
  {
    if forall x :: x in Elems(lists[k]) ==> x !in AllOf(lists, k) {
      forall j, x | 0 <= j < k && x in lists[j]
        ensures x !in lists[k]
      {
        FoundInOne(lists, k, x);
      }
    } else {
      var x :| x in Elems(lists[k]) && x in AllOf(lists, k);
      FoundInOne(lists, k, x);
      var j :| 0 <= j < k && x in lists[j];
      assert !Disjoint(lists[j], lists[k]);
    }
  }

  /** The last list that holds x. */
  function LastWith(lists: seq<seq<int>>, x: int): (k: Option<nat>)
    ensures k.Some? ==> k.value < |lists| && x in lists[k.value]
    ensures k.Some? ==> forall j :: k.value < j < |lists| ==> x !in lists[j]
    ensures k.None? ==> forall j :: 0 <= j < |lists| ==> x !in lists[j]
  {
    if lists == [] then None
    else if x in lists[|lists| - 1] then Some(|lists| - 1)
    else LastWith(lists[..|lists| - 1], x)
  }

  /** Among disjoint lists there is at most one to find. */
  lemma OnlyOneHolds(lists: seq<seq<int>>, k: nat, x: int)
    requires Pairwise(lists, |lists|) && k < |lists| && x in lists[k]
    ensures LastWith(lists, x) == Some(k)
  {
    var j := LastWith(lists, x).value;
    assert k < j ==> Disjoint(lists[k], lists[j]);
  }
}

/**
 * The two list operations the compositor's live-surface table relies on:
 * the first-occurrence search and `removeOne`, which deletes the first
 * element equal to the argument and keeps the order of the rest.
 */
module Lists {

  /** No element occurs twice. */
  ghost predicate Distinct<T>(xs: seq<T>) {
    forall i, j :: 0 <= i < j < |xs| ==> xs[i] != xs[j]
  }

  /** Position of the first occurrence of `x` in `xs`. */
  function FirstIndexOf<T(==)>(xs: seq<T>, x: T): (i: nat)
    requires x in xs
    ensures i < |xs| && xs[i] == x
    ensures x !in xs[..i]
  {
    if xs[0] == x then 0 else 1 + FirstIndexOf(xs[1..], x)
  }

  /** `removeOne`: drop the first occurrence of `x`, if there is one. */
  function RemoveFirst<T(==)>(xs: seq<T>, x: T): (r: seq<T>)
    ensures x !in xs ==> r == xs
    ensures x in xs ==> |r| == |xs| - 1
  {
    if x in xs then
      var i := FirstIndexOf(xs, x);
      xs[..i] + xs[i + 1..]
    else
      xs
  }

  /** Removing the first occurrence takes exactly one copy of `x` out of the bag, and nothing else. */
  lemma RemoveFirstMultiset<T>(xs: seq<T>, x: T)
    ensures multiset(RemoveFirst(xs, x)) == multiset(xs) - multiset{x}
  {
    if x in xs {
      var i := FirstIndexOf(xs, x);
      assert xs == xs[..i] + [xs[i]] + xs[i + 1..];
    } else {
      assert multiset(xs)[x] == 0;
    }
  }

  /**
   * The elements before the removed one keep their positions, and every
   * element after it moves up by exactly one place: relative order is kept.
   */
  lemma RemoveFirstKeepsOrder<T>(xs: seq<T>, x: T, k: nat)
    requires x in xs && k < |xs| - 1
    ensures var i := FirstIndexOf(xs, x);
            RemoveFirst(xs, x)[k] == if k < i then xs[k] else xs[k + 1]
  {
  }

  /** In a list without repetitions, `removeOne` leaves no copy behind and keeps the list repetition-free. */
  lemma RemoveFirstDistinct<T>(xs: seq<T>, x: T)
    requires Distinct(xs)
    ensures x !in RemoveFirst(xs, x)
    ensures Distinct(RemoveFirst(xs, x))
  {
    if x in xs {
      var i := FirstIndexOf(xs, x);
      var r := RemoveFirst(xs, x);
      forall k | 0 <= k < |r| ensures r[k] != x {
        RemoveFirstKeepsOrder(xs, x, k);
      }
      forall a, b | 0 <= a < b < |r| ensures r[a] != r[b] {
        RemoveFirstKeepsOrder(xs, x, a);
        RemoveFirstKeepsOrder(xs, x, b);
      }
    }
  }

  /** Appending an element that is not yet present keeps a list repetition-free. */
  lemma AppendDistinct<T>(xs: seq<T>, x: T)
    requires Distinct(xs) && x !in xs
    ensures Distinct(xs + [x])
  {
  }
}

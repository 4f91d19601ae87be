/** Sequence helpers shared by the deduplicating passes of the decoder. */
module Lists {

  /** No element occurs twice. */
  predicate Distinct<T(==)>(xs: seq<T>)
  {
    forall i, j :: 0 <= i < j < |xs| ==> xs[i] != xs[j]
  }

  /** The index of the first occurrence of `x` in `xs` (Python's `xs.index(x)`). */
  function IndexOf<T(==)>(xs: seq<T>, x: T): (i: nat)
    requires x in xs
    ensures i < |xs| && xs[i] == x && x !in xs[..i]
  {
    if xs[0] == x then 0
    else
      assert x in xs[1..];
      var j := IndexOf(xs[1..], x);
      assert xs[..1 + j] == [xs[0]] + xs[1..][..j];
      1 + j
  }

  /** The elements of `xs`, each kept at its first occurrence only, in the order first seen. */
  function FirstOccurrences<T(==)>(xs: seq<T>): (r: seq<T>)
    ensures Distinct(r)
    ensures forall x :: x in r ==> x in xs
    ensures forall x :: x in xs ==> x in r
  {
    if xs == [] then []
    else
      var init, last := xs[..|xs| - 1], xs[|xs| - 1];
      assert xs == init + [last];
      var kept := FirstOccurrences(init);
      if last in init then kept else kept + [last]
  }

  /** Looking an element up in a longer list finds the same first occurrence. */
  lemma {:induction false} IndexOfPrefix<T>(xs: seq<T>, ys: seq<T>, x: T)
    requires x in xs
    ensures IndexOf(xs + ys, x) == IndexOf(xs, x)
  {
    if xs[0] != x {
      assert (xs + ys)[1..] == xs[1..] + ys;
      IndexOfPrefix(xs[1..], ys, x);
    }
  }

  /** FirstOccurrences keeps the first-seen order: an element listed earlier was first seen earlier. */
  lemma {:induction false} FirstOccurrencesOrder<T>(xs: seq<T>, j: nat, k: nat)
    requires j < k < |FirstOccurrences(xs)|
    ensures IndexOf(xs, FirstOccurrences(xs)[j]) < IndexOf(xs, FirstOccurrences(xs)[k])
  {
    var init, last := xs[..|xs| - 1], xs[|xs| - 1];
    assert xs == init + [last];
    var kept := FirstOccurrences(init);
    var r := FirstOccurrences(xs);
    IndexOfPrefix(init, [last], r[j]);
    if last in init || k < |kept| {
      assert r[k] == kept[k] && r[j] == kept[j];
      FirstOccurrencesOrder(init, j, k);
      IndexOfPrefix(init, [last], r[k]);
    } else {
      assert r[k] == last && last !in init;
      assert IndexOf(xs, last) == |init|;
    }
  }
}

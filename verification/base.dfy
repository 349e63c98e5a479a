/** Small building blocks shared by every part of the model: an optional
    value, the shape of a Python value handed to a normaliser, a sequence
    filter (the list comprehensions `[x for x in xs if p(x)]` of the source)
    and the subsequence relation used to talk about order preservation. */
module Base {

  /** `None` stands for "the Python call raised" wherever a model function
      returns an `Option`. */
  datatype Option<+T> = None | Some(value: T)

  /** A value passed to a normaliser. The normalisers first test
      `isinstance(text, str)`: a pandas cell read from an empty CSV field is a
      float NaN, which is `NotStr` here. */
  datatype PyValue = PyStr(s: string) | NotStr

  /** `sub` is obtained from `xs` by deleting some elements, keeping the
      order of the rest. */
  ghost predicate IsSubsequence<T>(sub: seq<T>, xs: seq<T>)
    decreases |xs|
  {
    || sub == []
    || (&& xs != []
        && ((sub[0] == xs[0] && IsSubsequence(sub[1..], xs[1..])) || IsSubsequence(sub, xs[1..])))
  }

  /** `[x for x in xs if keep(x)]` (and, on strings, `''.join(c for c in s if keep(c))`). */
  function Filter<T>(xs: seq<T>, keep: T -> bool): (r: seq<T>)
    ensures |r| <= |xs|
    ensures forall x <- r :: x in xs && keep(x)
    ensures forall x <- xs :: keep(x) ==> x in r
    ensures IsSubsequence(r, xs)
  {
    if xs == [] then []
    else
      var rest := Filter(xs[1..], keep);
      assert forall x <- xs :: x == xs[0] || x in xs[1..];
      if keep(xs[0]) then
        assert ([xs[0]] + rest)[1..] == rest;
        [xs[0]] + rest
      else rest
  }

  /** Filtering distributes over concatenation: each element's fate is
      decided on its own, and the survivors keep their relative order. */
  lemma {:induction false} FilterAppend<T>(a: seq<T>, b: seq<T>, keep: T -> bool)
    ensures Filter(a + b, keep) == Filter(a, keep) + Filter(b, keep)
    decreases |a|
  {
    if a == [] {
      assert a + b == b;
    } else {
      assert (a + b)[0] == a[0];
      assert (a + b)[1..] == a[1..] + b;
      FilterAppend(a[1..], b, keep);
    }
  }

  /** A filter whose test every element passes changes nothing. */
  lemma {:induction false} FilterKeepsAll<T>(xs: seq<T>, keep: T -> bool)
    requires forall x <- xs :: keep(x)
    ensures Filter(xs, keep) == xs
    decreases |xs|
  {
    if xs != [] {
      assert xs[0] in xs;
      assert forall x <- xs[1..] :: x in xs;
      FilterKeepsAll(xs[1..], keep);
    }
  }

  /** The filter keeps every occurrence of a kept element and none of the
      others: each element occurs in the result as often as in the input if
      it passes the test, and not at all otherwise. */
  lemma {:induction false} FilterCount<T>(xs: seq<T>, keep: T -> bool)
    ensures forall x :: multiset(Filter(xs, keep))[x] == if keep(x) then multiset(xs)[x] else 0
    decreases |xs|
  {
    if xs != [] {
      FilterCount(xs[1..], keep);
      assert xs == [xs[0]] + xs[1..];
      assert multiset(xs) == multiset{xs[0]} + multiset(xs[1..]);
      if keep(xs[0]) {
        assert multiset(Filter(xs, keep)) == multiset{xs[0]} + multiset(Filter(xs[1..], keep));
      }
    }
  }
}

/**
 * The JavaScript array idioms the tools use on their lists: `filter`, and the
 * two bounded histories, `unshift` followed by at most one `pop`, and `push`
 * followed by at most one `shift`.
 */
module Lists {

  /** `xs.filter(keep)`. */
  function Filter<T>(xs: seq<T>, keep: T -> bool): (r: seq<T>)
    ensures |r| <= |xs|
    decreases |xs|
  {
    if xs == [] then []
    else if keep(xs[0]) then [xs[0]] + Filter(xs[1..], keep)
    else Filter(xs[1..], keep)
  }

  /** The result holds exactly the elements of the list that pass. */
  lemma {:induction false} FilterMembers<T>(xs: seq<T>, keep: T -> bool, x: T)
    ensures x in Filter(xs, keep) <==> x in xs && keep(x)
    decreases |xs|
  {
    if xs != [] {
      FilterMembers(xs[1..], keep, x);
      assert x in xs <==> x == xs[0] || x in xs[1..];
    }
  }

  /** Filtering keeps the relative order: it distributes over concatenation. */
  lemma {:induction false} FilterAppend<T>(xs: seq<T>, ys: seq<T>, keep: T -> bool)
    ensures Filter(xs + ys, keep) == Filter(xs, keep) + Filter(ys, keep)
    decreases |xs|
  {
    if xs == [] {
      assert xs + ys == ys;
    } else {
      assert (xs + ys)[1..] == xs[1..] + ys;
      FilterAppend(xs[1..], ys, keep);
    }
  }

  /** A list whose every element passes is left as it is. */
  lemma {:induction false} FilterAllKept<T>(xs: seq<T>, keep: T -> bool)
    requires forall i :: 0 <= i < |xs| ==> keep(xs[i])
    ensures Filter(xs, keep) == xs
    decreases |xs|
  {
    if xs != [] {
      FilterAllKept(xs[1..], keep);
    }
  }

  /** Filtering with a predicate and with its negation splits the list:
      every element goes to exactly one side. */
  lemma {:induction false} FilterPartition<T>(xs: seq<T>, keep: T -> bool, drop: T -> bool)
    requires forall x :: drop(x) == !keep(x)
    ensures multiset(Filter(xs, keep)) + multiset(Filter(xs, drop)) == multiset(xs)
    decreases |xs|
  {
    if xs != [] {
      FilterPartition(xs[1..], keep, drop);
      assert xs == [xs[0]] + xs[1..];
    }
  }

  /** Two filters in a row are one filter by both tests. */
  lemma {:induction false} FilterFilter<T>(xs: seq<T>, p: T -> bool, q: T -> bool, both: T -> bool)
    requires forall x :: both(x) == (p(x) && q(x))
    ensures Filter(Filter(xs, p), q) == Filter(xs, both)
    decreases |xs|
  {
    if xs != [] {
      FilterFilter(xs[1..], p, q, both);
      if p(xs[0]) {
        assert Filter(xs, p) == [xs[0]] + Filter(xs[1..], p);
        assert Filter(xs, p)[1..] == Filter(xs[1..], p);
      }
    }
  }

  /** Every element of a filtered list passes the test. */
  lemma {:induction false} FilterAllPass<T>(xs: seq<T>, keep: T -> bool)
    ensures forall i :: 0 <= i < |Filter(xs, keep)| ==> keep(Filter(xs, keep)[i])
    decreases |xs|
  {
    if xs != [] {
      FilterAllPass(xs[1..], keep);
    }
  }

  /** `xs.unshift(x); if (xs.length > cap) xs.pop();` */
  function PushFrontCapped<T>(xs: seq<T>, x: T, cap: nat): seq<T> {
    var ys := [x] + xs;
    if |ys| > cap then ys[..|ys| - 1] else ys
  }

  /** The newest entry is first, the older ones follow in their order with at
      most the oldest one dropped, and a history within its cap stays within
      it. */
  lemma PushFrontCappedSpec<T>(xs: seq<T>, x: T, cap: nat)
    requires 1 <= cap
    requires |xs| <= cap
    ensures var r := PushFrontCapped(xs, x, cap);
            && |r| == (if |xs| < cap then |xs| + 1 else cap)
            && r[0] == x
            && r[1..] == xs[..|r| - 1]
  {
  }

  /** `xs.push(x); if (xs.length > cap) xs.shift();` */
  function PushBackCapped<T>(xs: seq<T>, x: T, cap: nat): seq<T> {
    var ys := xs + [x];
    if |ys| > cap then ys[1..] else ys
  }

  /** The newest entry is last, the older ones precede it in their order with
      at most the oldest one dropped, and a history within its cap stays
      within it. */
  lemma PushBackCappedSpec<T>(xs: seq<T>, x: T, cap: nat)
    requires 1 <= cap
    requires |xs| <= cap
    ensures var r := PushBackCapped(xs, x, cap);
            && |r| == (if |xs| < cap then |xs| + 1 else cap)
            && r[|r| - 1] == x
            && r[..|r| - 1] == xs[|xs| - (|r| - 1)..]
  {
  }
}

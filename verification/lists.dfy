/**
 * List operations the sources use on arrays: keeping the present results of
 * a per-element conversion (a loop that pushes `f(x)` for every `x` the
 * conversion accepts), `filter` and `some`.  Stated for any conversion or
 * predicate, so that facts about order and counting do not depend on what
 * the conversion or predicate does.
 */
module Lists {
  import opened Wrappers

  /** The values `f` yields on `xs`, in the order of `xs`, skipping `None`. */
  function FilterMap<A, B>(f: A -> Option<B>, xs: seq<A>): seq<B>
  {
    if xs == [] then []
    else FilterMap(f, xs[..|xs| - 1]) + (if f(xs[|xs| - 1]).Some? then [f(xs[|xs| - 1]).value] else [])
  }

  /** How many elements of `xs` the conversion accepts. */
  function Accepted<A, B>(f: A -> Option<B>, xs: seq<A>): (n: nat)
    ensures n <= |xs|
  {
    if xs == [] then 0
    else Accepted(f, xs[..|xs| - 1]) + (if f(xs[|xs| - 1]).Some? then 1 else 0)
  }

  /** Every value kept is a value the conversion produced for some element. */
  lemma {:induction false} FilterMapFrom<A, B>(f: A -> Option<B>, xs: seq<A>, y: B)
    requires y in FilterMap(f, xs)
    ensures exists x :: x in xs && f(x) == Some(y)
  {
    var init := xs[..|xs| - 1];
    var last := xs[|xs| - 1];
    if y in FilterMap(f, init) {
      FilterMapFrom(f, init, y);
      var x :| x in init && f(x) == Some(y);
      assert x in xs;
    } else {
      assert f(last) == Some(y);
    }
  }

  /** One more element adds its value, if it has one, at the end. */
  lemma FilterMapSnoc<A, B>(f: A -> Option<B>, xs: seq<A>, x: A)
    ensures FilterMap(f, xs + [x]) == FilterMap(f, xs) + (if f(x).Some? then [f(x).value] else [])
  {
    assert (xs + [x])[..|xs|] == xs;
  }

  /** Elements are converted independently: the result of a concatenation is the concatenation of results. */
  lemma {:induction false} FilterMapAppend<A, B>(f: A -> Option<B>, xs: seq<A>, ys: seq<A>)
    ensures FilterMap(f, xs + ys) == FilterMap(f, xs) + FilterMap(f, ys)
    decreases |ys|
  {
    if ys == [] {
      assert xs + ys == xs;
    } else {
      assert (xs + ys)[..|xs + ys| - 1] == xs + ys[..|ys| - 1];
      FilterMapAppend(f, xs, ys[..|ys| - 1]);
    }
  }

  /** One value per accepted element. */
  lemma {:induction false} FilterMapLength<A, B>(f: A -> Option<B>, xs: seq<A>)
    ensures |FilterMap(f, xs)| == Accepted(f, xs)
  {
    if xs != [] {
      FilterMapLength(f, xs[..|xs| - 1]);
    }
  }

  /** The value of an accepted element sits after the values of the accepted elements before it. */
  lemma {:induction false} FilterMapIndex<A, B>(f: A -> Option<B>, xs: seq<A>, i: nat)
    requires i < |xs| && f(xs[i]).Some?
    ensures Accepted(f, xs[..i]) < |FilterMap(f, xs)|
    ensures FilterMap(f, xs)[Accepted(f, xs[..i])] == f(xs[i]).value
    decreases |xs|
  {
    var n := |xs|;
    var init := xs[..n - 1];
    FilterMapLength(f, xs);
    FilterMapLength(f, init);
    if i < n - 1 {
      FilterMapIndex(f, init, i);
      assert init[..i] == xs[..i];
      assert init[i] == xs[i];
    } else {
      assert xs[..i] == init;
    }
  }

  /** Nothing is dropped exactly when every element is accepted. */
  lemma {:induction false} AcceptedAll<A, B>(f: A -> Option<B>, xs: seq<A>)
    ensures Accepted(f, xs) == |xs| <==> forall k :: 0 <= k < |xs| ==> f(xs[k]).Some?
  {
    if xs != [] {
      var init := xs[..|xs| - 1];
      AcceptedAll(f, init);
      if Accepted(f, xs) == |xs| {
        forall k | 0 <= k < |xs| ensures f(xs[k]).Some? {
          if k < |xs| - 1 { assert xs[k] == init[k]; }
        }
      } else {
        forall k | 0 <= k < |init| ensures f(init[k]).Some? == f(xs[k]).Some? {
          assert init[k] == xs[k];
        }
      }
    }
  }

  /** With every element accepted, the result is the element-wise conversion. */
  lemma {:induction false} FilterMapAll<A, B>(f: A -> Option<B>, xs: seq<A>)
    requires forall k :: 0 <= k < |xs| ==> f(xs[k]).Some?
    ensures |FilterMap(f, xs)| == |xs|
    ensures forall k :: 0 <= k < |xs| ==> FilterMap(f, xs)[k] == f(xs[k]).value
  {
    FilterMapLength(f, xs);
    AcceptedAll(f, xs);
    forall k | 0 <= k < |xs| ensures FilterMap(f, xs)[k] == f(xs[k]).value {
      FilterMapIndex(f, xs, k);
      AcceptedAll(f, xs[..k]);
      assert forall j :: 0 <= j < k ==> xs[..k][j] == xs[j];
    }
  }

  /** `xs.filter(keep)`: the kept elements in their original order. */
  function Filter<A>(keep: A -> bool, xs: seq<A>): seq<A>
  {
    if xs == [] then []
    else Filter(keep, xs[..|xs| - 1]) + (if keep(xs[|xs| - 1]) then [xs[|xs| - 1]] else [])
  }

  /** An element survives the filter exactly when it was there and is kept. */
  lemma {:induction false} FilterMembers<A>(keep: A -> bool, xs: seq<A>)
    ensures |Filter(keep, xs)| <= |xs|
    ensures forall x :: x in Filter(keep, xs) <==> x in xs && keep(x)
  {
    if xs != [] {
      var init := xs[..|xs| - 1];
      FilterMembers(keep, init);
      assert xs == init + [xs[|xs| - 1]];
    }
  }

  /** Filtering a concatenation filters each part: the kept elements keep their order. */
  lemma {:induction false} FilterAppend<A>(keep: A -> bool, xs: seq<A>, ys: seq<A>)
    ensures Filter(keep, xs + ys) == Filter(keep, xs) + Filter(keep, ys)
    decreases |ys|
  {
    if ys == [] {
      assert xs + ys == xs;
    } else {
      assert (xs + ys)[..|xs + ys| - 1] == xs + ys[..|ys| - 1];
      FilterAppend(keep, xs, ys[..|ys| - 1]);
    }
  }

  /** A filter that keeps everything changes nothing. */
  lemma {:induction false} FilterAllKept<A>(keep: A -> bool, xs: seq<A>)
    requires forall k :: 0 <= k < |xs| ==> keep(xs[k])
    ensures Filter(keep, xs) == xs
  {
    if xs != [] {
      var init := xs[..|xs| - 1];
      assert forall k :: 0 <= k < |init| ==> init[k] == xs[k];
      FilterAllKept(keep, init);
      assert xs == init + [xs[|xs| - 1]];
    }
  }

  /** A filter that keeps everything changes nothing, and only such a filter. */
  lemma FilterKeepsAll<A>(keep: A -> bool, xs: seq<A>)
    ensures Filter(keep, xs) == xs <==> forall k :: 0 <= k < |xs| ==> keep(xs[k])
  {
    if forall k :: 0 <= k < |xs| ==> keep(xs[k]) {
      FilterAllKept(keep, xs);
    } else {
      var k :| 0 <= k < |xs| && !keep(xs[k]);
      FilterMembers(keep, xs);
      assert xs[k] !in Filter(keep, xs);
    }
  }

  /** `xs` is `ys` with some elements deleted (matched greedily from the end). */
  predicate IsSubsequence<A(==)>(xs: seq<A>, ys: seq<A>)
    decreases |ys|
  {
    if xs == [] then true
    else if ys == [] then false
    else if xs[|xs| - 1] == ys[|ys| - 1] then IsSubsequence(xs[..|xs| - 1], ys[..|ys| - 1])
    else IsSubsequence(xs, ys[..|ys| - 1])
  }

  /** Any suffix of a filtered sequence is a subsequence of the original. */
  lemma {:induction false} FilterSuffixSubsequence<A>(keep: A -> bool, xs: seq<A>, n: nat)
    requires n <= |Filter(keep, xs)|
    ensures IsSubsequence(Filter(keep, xs)[n..], xs)
  {
    var r := Filter(keep, xs)[n..];
    if r != [] {
      var init := xs[..|xs| - 1];
      var last := xs[|xs| - 1];
      var fi := Filter(keep, init);
      FilterMembers(keep, init);
      if keep(last) {
        FilterSuffixSubsequence(keep, init, n);
        assert r == fi[n..] + [last];
        assert r[..|r| - 1] == fi[n..];
      } else {
        FilterSuffixSubsequence(keep, init, n);
        assert r == fi[n..];
        assert r[|r| - 1] in fi;
        assert r[|r| - 1] != last;
      }
    }
  }

  /** `xs.some(p)`. */
  function AnyOf<A>(p: A -> bool, xs: seq<A>): (b: bool)
    ensures b <==> exists k :: 0 <= k < |xs| && p(xs[k])
  {
    if xs == [] then false
    else p(xs[0]) || (assert forall k :: 0 <= k < |xs[1..]| ==> xs[1..][k] == xs[k + 1]; AnyOf(p, xs[1..]))
  }

  /** `xs.map(f)`. */
  function Map<A, B>(f: A -> B, xs: seq<A>): (r: seq<B>)
    ensures |r| == |xs|
    ensures forall k :: 0 <= k < |xs| ==> r[k] == f(xs[k])
  {
    if xs == [] then [] else [f(xs[0])] + Map(f, xs[1..])
  }
}

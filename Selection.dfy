/**
 * The order-keeping split of a sequence by a list of verdicts, which
 * `parse_feed`, `process_feed`, `filter_feed` and `build_filtered_rss` each
 * perform with a loop that appends to one list or another.
 */
module Selection {

  /** The elements among the first `n` of `xs` whose flag is `want`, in order. */
  function Pick<T>(xs: seq<T>, flags: seq<bool>, want: bool, n: nat): seq<T>
    requires |flags| == |xs| && n <= |xs|
    decreases n
  {
    if n == 0 then []
    else Pick(xs, flags, want, n - 1) + (if flags[n - 1] == want then [xs[n - 1]] else [])
  }

  /** One more element considered: it is appended exactly when its flag is `want`. */
  lemma PickNext<T>(xs: seq<T>, flags: seq<bool>, want: bool, n: nat, acc: seq<T>, next: seq<T>)
    requires |flags| == |xs| && n < |xs| && acc == Pick(xs, flags, want, n)
    requires next == if flags[n] == want then acc + [xs[n]] else acc
    ensures next == Pick(xs, flags, want, n + 1)
  {
  }

  /** The positions among the first `n` whose flag is `want`, in increasing order. */
  function PickIndices(flags: seq<bool>, want: bool, n: nat): (r: seq<nat>)
    requires n <= |flags|
    decreases n
  {
    if n == 0 then []
    else PickIndices(flags, want, n - 1) + (if flags[n - 1] == want then [n - 1] else [])
  }

  /** The elements of `xs` whose flag is `want`, in their original order. */
  function Select<T>(xs: seq<T>, flags: seq<bool>, want: bool): seq<T>
    requires |flags| == |xs|
  {
    Pick(xs, flags, want, |xs|)
  }

  /** Each selected element comes from a position whose flag is `want`, in order. */
  lemma {:induction false} PickAt<T>(xs: seq<T>, flags: seq<bool>, want: bool, n: nat)
    requires |flags| == |xs| && n <= |xs|
    ensures |Pick(xs, flags, want, n)| == |PickIndices(flags, want, n)|
    ensures forall k :: 0 <= k < |PickIndices(flags, want, n)| ==>
              var i := PickIndices(flags, want, n)[k];
              i < n && flags[i] == want && Pick(xs, flags, want, n)[k] == xs[i]
    decreases n
  {
    if n > 0 {
      PickAt(xs, flags, want, n - 1);
    }
  }

  /** The selected positions increase: `Pick` keeps the order of `xs`. */
  lemma {:induction false} PickIndicesIncrease(flags: seq<bool>, want: bool, n: nat)
    requires n <= |flags|
    ensures forall k :: 0 <= k < |PickIndices(flags, want, n)| ==> PickIndices(flags, want, n)[k] < n
    ensures forall a, b :: 0 <= a < b < |PickIndices(flags, want, n)| ==>
              PickIndices(flags, want, n)[a] < PickIndices(flags, want, n)[b]
    decreases n
  {
    if n > 0 {
      PickIndicesIncrease(flags, want, n - 1);
    }
  }

  /** Every position whose flag is `want` is selected: `Pick` loses nothing. */
  lemma {:induction false} PickIndicesComplete(flags: seq<bool>, want: bool, n: nat)
    requires n <= |flags|
    ensures forall i :: 0 <= i < n && flags[i] == want ==> i in PickIndices(flags, want, n)
    decreases n
  {
    if n > 0 {
      PickIndicesComplete(flags, want, n - 1);
    }
  }

  /** Every element of `xs` lands on exactly one side of the split. */
  lemma {:induction false} PickSizes<T>(xs: seq<T>, flags: seq<bool>, n: nat)
    requires |flags| == |xs| && n <= |xs|
    ensures |Pick(xs, flags, true, n)| + |Pick(xs, flags, false, n)| == n
    decreases n
  {
    if n > 0 {
      PickSizes(xs, flags, n - 1);
    }
  }

  lemma {:induction false} PickSplits<T>(xs: seq<T>, flags: seq<bool>, n: nat)
    requires |flags| == |xs| && n <= |xs|
    ensures multiset(Pick(xs, flags, true, n)) + multiset(Pick(xs, flags, false, n)) == multiset(xs[..n])
    decreases n
  {
    if n > 0 {
      PickSplits(xs, flags, n - 1);
      var x := xs[n - 1];
      var a, b := Pick(xs, flags, true, n - 1), Pick(xs, flags, false, n - 1);
      var a', b' := Pick(xs, flags, true, n), Pick(xs, flags, false, n);
      PickNext(xs, flags, true, n - 1, a, if flags[n - 1] then a + [x] else a);
      PickNext(xs, flags, false, n - 1, b, if flags[n - 1] then b else b + [x]);
      PrefixSnoc(xs, n);
      SplitStep(a, b, xs[..n - 1], x, flags[n - 1]);
    } else {
      assert xs[..0] == [];
    }
  }

  /** Appending `x` to one side of a split of `c` splits `c + [x]`. */
  lemma SplitStep<T>(a: seq<T>, b: seq<T>, c: seq<T>, x: T, left: bool)
    requires multiset(a) + multiset(b) == multiset(c)
    ensures multiset(if left then a + [x] else a) + multiset(if left then b else b + [x]) == multiset(c + [x])
  {
  }

  lemma PrefixSnoc<T>(xs: seq<T>, n: nat)
    requires 0 < n <= |xs|
    ensures xs[..n] == xs[..n - 1] + [xs[n - 1]]
  {
  }

  lemma SelectSplits<T>(xs: seq<T>, flags: seq<bool>)
    requires |flags| == |xs|
    ensures |Select(xs, flags, true)| + |Select(xs, flags, false)| == |xs|
    ensures multiset(Select(xs, flags, true)) + multiset(Select(xs, flags, false)) == multiset(xs)
  {
    PickSizes(xs, flags, |xs|);
    PickSplits(xs, flags, |xs|);
    assert xs[..|xs|] == xs;
  }

  /** An element is selected exactly when it stands at a position whose flag is `want`. */
  lemma SelectMembers<T>(xs: seq<T>, flags: seq<bool>, want: bool, x: T)
    requires |flags| == |xs|
    ensures x in Select(xs, flags, want) <==> exists i :: 0 <= i < |xs| && flags[i] == want && xs[i] == x
  {
    PickAt(xs, flags, want, |xs|);
    PickIndicesComplete(flags, want, |xs|);
    var r, ix := Select(xs, flags, want), PickIndices(flags, want, |xs|);
    if x in r {
      var k :| 0 <= k < |r| && r[k] == x;
      assert flags[ix[k]] == want && xs[ix[k]] == x;
    }
    if exists i :: 0 <= i < |xs| && flags[i] == want && xs[i] == x {
      var i :| 0 <= i < |xs| && flags[i] == want && xs[i] == x;
      var k :| 0 <= k < |ix| && ix[k] == i;
      assert r[k] == x;
    }
  }

  /** `[f(x) for x in xs]`. */
  function MapSeq<A, B>(f: A -> B, xs: seq<A>): (r: seq<B>)
    ensures |r| == |xs|
    decreases |xs|
  {
    if xs == [] then [] else MapSeq(f, xs[..|xs| - 1]) + [f(xs[|xs| - 1])]
  }

  /** `MapSeq` has one result per element, the function applied to that element. */
  lemma {:induction false} MapSeqAt<A, B>(f: A -> B, xs: seq<A>, k: nat)
    requires k < |xs|
    ensures MapSeq(f, xs)[k] == f(xs[k])
    decreases |xs|
  {
    if k < |xs| - 1 {
      MapSeqAt(f, xs[..|xs| - 1], k);
    }
  }

  /** Every element of `MapSeq(f, xs)` is the image of an element of `xs`. */
  lemma MapSeqMember<A, B>(f: A -> B, xs: seq<A>, y: B) returns (j: nat)
    requires y in MapSeq(f, xs)
    ensures j < |xs| && y == f(xs[j])
  {
    var m :| 0 <= m < |MapSeq(f, xs)| && MapSeq(f, xs)[m] == y;
    MapSeqAt(f, xs, m);
    j := m;
  }
}

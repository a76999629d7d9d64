/** `src/utils.py`: splitting a list into consecutive slices of at most `n`
    elements. */
module Utils {

  /** All the slices, in order, glued back together. */
  function Flatten<T>(xss: seq<seq<T>>): seq<T> {
    if xss == [] then [] else xss[0] + Flatten(xss[1..])
  }

  function Min(a: int, b: int): int {
    if a <= b then a else b
  }

  /** The slices `xs[i : i + n]`, `xs[i + n : i + 2n]`, ... that the loop
      `for i in range(start, len(xs), n)` yields; a slice that runs past the
      end is cut short there, as Python slicing does. */
  function ChunksFrom<T>(xs: seq<T>, n: nat, start: nat): (r: seq<seq<T>>)
    requires n > 0
    requires start <= |xs|
    ensures Flatten(r) == xs[start..]
    ensures forall k :: 0 <= k < |r| ==> 1 <= |r[k]| <= n
    ensures forall k :: 0 <= k < |r| - 1 ==> |r[k]| == n
    ensures r == [] <==> start == |xs|
    decreases |xs| - start
  {
    if start == |xs| then
      []
    else
      var stop := Min(start + n, |xs|);
      var rest := ChunksFrom(xs, n, stop);
      assert xs[start..] == xs[start..stop] + xs[stop..];
      [xs[start..stop]] + rest
  }

  /** `chunk_list(_list, n)`. Python raises for `n == 0` (a `range` step of
      zero), so `n` must be positive. */
  function ChunkList<T>(xs: seq<T>, n: nat): (r: seq<seq<T>>)
    requires n > 0
    ensures Flatten(r) == xs
    ensures forall k :: 0 <= k < |r| ==> 1 <= |r[k]| <= n
    ensures forall k :: 0 <= k < |r| - 1 ==> |r[k]| == n
    ensures r == [] <==> xs == []
  {
    ChunksFrom(xs, n, 0)
  }

  /** The number of slices is the length divided by `n`, rounded up. */
  lemma {:induction false} ChunksFromCount<T>(xs: seq<T>, n: nat, start: nat)
    requires n > 0
    requires start <= |xs|
    ensures |ChunksFrom(xs, n, start)| == (|xs| - start + n - 1) / n
    decreases |xs| - start
  {
    var len := |xs| - start;
    if start < |xs| {
      var stop := Min(start + n, |xs|);
      ChunksFromCount(xs, n, stop);
      if start + n < |xs| {
        DivStep(len - n, n);
      } else {
        DivOne(len, n);
      }
    }
  }

  lemma MulAtLeast(k: int, n: int)
    requires k >= 1 && n > 0
    ensures k * n >= n
  {
    if k > 1 {
      MulAtLeast(k - 1, n);
      assert k * n == (k - 1) * n + n;
    }
  }
  lemma DivUnique(a: int, n: int, q: int, r: int)
    requires n > 0 && 0 <= r < n && a == q * n + r
    ensures a / n == q
  {
    var q', r' := a / n, a % n;
    assert a == q' * n + r';
    if q' < q {
      assert (q - q') * n == q * n - q' * n;
      MulAtLeast(q - q', n);
    } else if q' > q {
      assert (q' - q) * n == q' * n - q * n;
      MulAtLeast(q' - q, n);
    }
  }
  lemma DivStep(m: nat, n: nat)
    requires n > 0
    ensures (m + n + n - 1) / n == (m + n - 1) / n + 1
  {
    var q, r := (m + n - 1) / n, (m + n - 1) % n;
    assert m + n - 1 == q * n + r;
    assert (q + 1) * n == q * n + n;
    DivUnique(m + n + n - 1, n, q + 1, r);
  }
  lemma DivOne(len: nat, n: nat)
    requires 0 < len <= n
    ensures (len + n - 1) / n == 1
  {
    DivUnique(len + n - 1, n, 1, len - 1);
  }

  lemma ChunkCount<T>(xs: seq<T>, n: nat)
    requires n > 0
    ensures |ChunkList(xs, n)| == (|xs| + n - 1) / n
  {
    ChunksFromCount(xs, n, 0);
  }

  /** Slice `k` of `ChunksFrom(xs, n, start)` starts at `start + k * n`. */
  lemma {:induction false} ChunksFromAt<T>(xs: seq<T>, n: nat, start: nat, k: nat)
    requires n > 0
    requires start <= |xs|
    requires k < |ChunksFrom(xs, n, start)|
    ensures start + k * n < |xs|
    ensures ChunksFrom(xs, n, start)[k] == xs[start + k * n .. Min(start + (k + 1) * n, |xs|)]
    decreases |xs| - start
  {
    if k > 0 {
      var stop := Min(start + n, |xs|);
      ChunksFromAt(xs, n, stop, k - 1);
      assert stop == start + n;
      assert stop + (k - 1) * n == start + k * n;
      assert stop + k * n == start + (k + 1) * n;
    }
  }

  /** Slice `k` is `xs[k * n : (k + 1) * n]`, cut at the end of `xs`. */
  lemma ChunkAt<T>(xs: seq<T>, n: nat, k: nat)
    requires n > 0
    requires k < |ChunkList(xs, n)|
    ensures k * n < |xs|
    ensures ChunkList(xs, n)[k] == xs[k * n .. Min((k + 1) * n, |xs|)]
  {
    ChunksFromAt(xs, n, 0, k);
  }

  lemma {:induction false} FlattenAppend<T>(a: seq<seq<T>>, b: seq<seq<T>>)
    ensures Flatten(a + b) == Flatten(a) + Flatten(b)
  {
    if a == [] {
      assert a + b == b;
    } else {
      assert (a + b)[1..] == a[1..] + b;
      FlattenAppend(a[1..], b);
    }
  }
}

/** The prefetch window: `np.arange(pos, pos + prefetchSize + 1) % sizeT`,
    i.e. the frame indices the background loader should keep resident. */
module Window {

  /** Element-wise integer remainder as NumPy computes it. For a positive
      divisor it is the floor remainder, which is Dafny's `%` as well; NumPy
      gives 0 (with a runtime warning) for an integer divisor of 0. */
  function Mod(a: int, n: nat): (r: int)
    ensures n == 0 ==> r == 0
    ensures n > 0 ==> 0 <= r < n
    ensures n > 0 && 0 <= a < n ==> r == a
    ensures n > 0 ==> exists q :: a == n * q + r
  {
    if n == 0 then 0 else assert a == n * (a / n) + a % n; a % n
  }

  /** `np.arange(start, stop)`: the integers from `start` up to, not
      including, `stop`; empty when `stop <= start`. */
  function Arange(start: int, stop: int): (r: seq<int>)
    ensures |r| == if start <= stop then stop - start else 0
    ensures forall k :: 0 <= k < |r| ==> r[k] == start + k
    decreases stop - start
  {
    if stop <= start then [] else [start] + Arange(start + 1, stop)
  }

  /** `s % n` applied to every element of an integer array. */
  function Remainders(s: seq<int>, n: nat): (r: seq<int>)
    ensures |r| == |s|
    ensures forall k :: 0 <= k < |r| ==> r[k] == Mod(s[k], n)
  {
    if s == [] then [] else [Mod(s[0], n)] + Remainders(s[1..], n)
  }

  /** `DataLoadModel.neighborhood(pos)`: the `prefetchSize + 1` indices
      following and including `pos`, wrapped around the stack of `sizeT`
      frames. */
  function Neighborhood(pos: int, prefetchSize: int, sizeT: nat): (r: seq<int>)
    ensures |r| == if prefetchSize >= 0 then prefetchSize + 1 else 0
    ensures sizeT > 0 ==> forall k :: 0 <= k < |r| ==> r[k] == (pos + k) % sizeT
    ensures sizeT > 0 ==> forall k :: 0 <= k < |r| ==> 0 <= r[k] < sizeT
    ensures sizeT == 0 ==> forall k :: 0 <= k < |r| ==> r[k] == 0
    ensures 0 <= pos < sizeT && prefetchSize >= 0 ==> r[0] == pos
  {
    Remainders(Arange(pos, pos + prefetchSize + 1), sizeT)
  }

  /** A positive multiple of a positive `n` is at least `n`; a non-positive
      one is at most 0. */
  lemma MultipleBounds(n: int, q: int)
    requires n > 0
    ensures q >= 1 ==> n * q >= n
    ensures q <= 0 ==> n * q <= 0
  {
  }

  /** Euclidean division is unique: any decomposition `a == n * q + r` with
      `0 <= r < n` is the one Dafny's `/` and `%` compute. */
  lemma RemainderUnique(a: int, n: int, q: int, r: int)
    requires n > 0 && 0 <= r < n && a == n * q + r
    ensures a % n == r
  {
    var q', r' := a / n, a % n;
    assert a == n * q' + r';
    assert n * (q - q') == r' - r;
    MultipleBounds(n, q - q');
    MultipleBounds(n, q' - q);
    assert n * (q' - q) == -(n * (q - q'));
  }

  /** Two integers less than `n` apart have different remainders modulo `n`. */
  lemma RemaindersDiffer(a: int, b: int, n: int)
    requires n > 0 && a < b < a + n
    ensures a % n != b % n
  {
    var qa, qb := a / n, b / n;
    assert a == n * qa + a % n;
    assert b == n * qb + b % n;
    if a % n == b % n {
      assert b - a == n * qb - n * qa;
      assert n * qb - n * qa == n * (qb - qa);
      MultipleBounds(n, qb - qa);
    }
  }

  /** When the window is no wider than the stack, it never wraps onto
      itself: all of its indices are distinct. */
  lemma NeighborhoodDistinct(pos: int, prefetchSize: int, sizeT: nat)
    requires 0 <= prefetchSize < sizeT
    ensures var r := Neighborhood(pos, prefetchSize, sizeT);
      forall i, j :: 0 <= i < j < |r| ==> r[i] != r[j]
  {
    var r := Neighborhood(pos, prefetchSize, sizeT);
    forall i, j | 0 <= i < j < |r|
      ensures r[i] != r[j]
    {
      RemaindersDiffer(pos + i, pos + j, sizeT);
    }
  }

  /** When the window is at least as wide as the stack (the degenerate case
      in which it holds duplicates), every frame of the stack is in it. */
  lemma NeighborhoodCoversStack(pos: int, prefetchSize: int, sizeT: nat, x: int)
    requires 0 < sizeT <= prefetchSize + 1
    requires 0 <= x < sizeT
    ensures x in Neighborhood(pos, prefetchSize, sizeT)
  {
    var r := Neighborhood(pos, prefetchSize, sizeT);
    var k := (x - pos) % sizeT;
    var q := (x - pos) / sizeT;
    assert x - pos == sizeT * q + k;
    assert pos + k == sizeT * -q + x;
    RemainderUnique(pos + k, sizeT, -q, x);
    assert r[k] == x;
  }

  /** A window of three frames starting at frame 8 of a ten-frame stack
      wraps around to frame 0. */
  lemma NeighborhoodWrapsAround()
    ensures Neighborhood(8, 2, 10) == [8, 9, 0]
  {
  }
}

/** The face ordering of plRenderEnd: _hsort/_sift_down, an in-place heap
    sort over the accepted faces by their depth key `zd`. The source sorts
    through `Base = base - 1`, so heap positions are 1-based: position k is
    array index k - 1. The direction flag flips the comparison: dir 0 builds
    a heap with the least key on top and leaves the keys non-increasing,
    dir 1 the opposite. */
module FaceSort {

  /** One accepted face (_faceInfo): its depth key and the face it refers
      to. The float key is modelled by an integer. */
  datatype FaceInfo = FaceInfo(zd: int, face: nat)

  /** `dir ^ _pl_Comp(x, y)`: true when x's key is below y's for dir 0,
      when it is not below y's for dir 1. */
  predicate Comp(dir: int, x: FaceInfo, y: FaceInfo)
  {
    (dir == 1) != (x.zd < y.zd)
  }

  /** x may sit above y in the heap of direction dir. */
  predicate Above(dir: int, x: int, y: int)
  {
    if dir == 0 then x <= y else x >= y
  }

  /** The key at 1-based heap position k. */
  function Key(s: seq<FaceInfo>, k: int): int
    requires 1 <= k <= |s|
  {
    s[k - 1].zd
  }

  /** Every parent-child pair of positions lo .. u with a parent at lo or
      later, except those whose parent is `hole`, is in heap order. */
  ghost predicate HeapExcept(dir: int, s: seq<FaceInfo>, lo: int, u: int, hole: int)
    requires 1 <= lo && u <= |s|
  {
    forall j :: 2 * lo <= j <= u && j / 2 != hole ==> Above(dir, Key(s, j / 2), Key(s, j))
  }

  ghost predicate Heap(dir: int, s: seq<FaceInfo>, lo: int, u: int)
    requires 1 <= lo && u <= |s|
  {
    HeapExcept(dir, s, lo, u, 0)
  }

  /** The keys of s, read front to back, go the way dir asks: non-increasing
      for dir 0, non-decreasing for dir 1. */
  predicate Sorted(dir: int, s: seq<FaceInfo>)
  {
    forall p, q :: 0 <= p < q < |s| ==> Above(dir, s[q].zd, s[p].zd)
  }

  /** The top of a heap is above every element of it. */
  lemma {:induction false} HeapTop(dir: int, s: seq<FaceInfo>, u: int, k: int)
    requires dir == 0 || dir == 1
    requires 1 <= u <= |s| && Heap(dir, s, 1, u) && 1 <= k <= u
    ensures Above(dir, Key(s, 1), Key(s, k))
    decreases k
  {
    if k > 1 {
      HeapTop(dir, s, u, k / 2);
      assert Above(dir, Key(s, k / 2), Key(s, k));
    }
  }

  /** _sift_down(L, U, dir): moves the entry at position L down until the
      positions L .. U are in heap order, swapping with the child the
      comparison picks. */
  method SiftDown(a: array<FaceInfo>, l0: int, u: int, dir: int)
    requires dir == 0 || dir == 1
    requires 1 <= l0 && u <= a.Length
    requires HeapExcept(dir, a[..], l0, u, l0)
    modifies a
    ensures Heap(dir, a[..], l0, u)
    ensures multiset(a[..]) == old(multiset(a[..]))
    ensures u >= 0 ==> multiset(a[..u]) == old(multiset(a[..u]))
    ensures forall k :: 0 <= k < a.Length && !(l0 <= k + 1 <= u) ==> a[k] == old(a[k])
  {
    var l := l0;
    while true
      invariant l0 <= l
      invariant HeapExcept(dir, a[..], l0, u, l)
      invariant l > l0 ==> forall j :: 2 * l <= j <= u && j <= 2 * l + 1 ==> Above(dir, Key(a[..], l / 2), Key(a[..], j))
      invariant multiset(a[..]) == old(multiset(a[..]))
      invariant u >= 0 ==> multiset(a[..u]) == old(multiset(a[..u]))
      invariant forall k :: 0 <= k < a.Length && !(l0 <= k + 1 <= u) ==> a[k] == old(a[k])
      decreases u - l
    {
      var c := l + l;
      if c > u {
        return;
      }
      if c < u && Comp(dir, a[c], a[c - 1]) {
        c := c + 1;
      }
      if Comp(dir, a[l - 1], a[c - 1]) {
        return;
      }
      SwapDown(a, l0, u, dir, l, c);
      l := c;
    }
  }

  /** The swap of one _sift_down step, between L and its chosen child c. */
  method SwapDown(a: array<FaceInfo>, l0: int, u: int, dir: int, l: int, c: int)
    requires dir == 0 || dir == 1
    requires 1 <= l0 <= l && u <= a.Length
    requires c / 2 == l && 2 * l <= c <= u
    requires HeapExcept(dir, a[..], l0, u, l)
    requires l > l0 ==> forall j :: 2 * l <= j <= u && j <= 2 * l + 1 ==> Above(dir, Key(a[..], l / 2), Key(a[..], j))
    requires forall j :: 2 * l <= j <= u && j <= 2 * l + 1 ==> Above(dir, Key(a[..], c), Key(a[..], j))
    requires Above(dir, Key(a[..], c), Key(a[..], l))
    modifies a
    ensures HeapExcept(dir, a[..], l0, u, c)
    ensures forall j :: 2 * c <= j <= u && j <= 2 * c + 1 ==> Above(dir, Key(a[..], c / 2), Key(a[..], j))
    ensures multiset(a[..]) == old(multiset(a[..]))
    ensures u >= 0 ==> multiset(a[..u]) == old(multiset(a[..u]))
    ensures forall k :: 0 <= k < a.Length && !(l0 <= k + 1 <= u) ==> a[k] == old(a[k])
  {
    ghost var s := a[..];
    a[l - 1], a[c - 1] := a[c - 1], a[l - 1];
    assert a[..] == Swap(s, l, c);
    assert a[..u] == Swap(s[..u], l, c);
    SwapKeepsHeap(dir, s, l0, u, l, c);
  }

  /** Positions i and j (1-based) of s exchanged. */
  function Swap(s: seq<FaceInfo>, i: int, j: int): (t: seq<FaceInfo>)
    requires 1 <= i <= |s| && 1 <= j <= |s|
    ensures |t| == |s| && multiset(t) == multiset(s)
  {
    s[i - 1 := s[j - 1]][j - 1 := s[i - 1]]
  }

  /** Swapping L with its chosen child moves the one pair out of heap
      order from L down to c. */
  lemma SwapKeepsHeap(dir: int, s: seq<FaceInfo>, l0: int, u: int, l: int, c: int)
    requires dir == 0 || dir == 1
    requires 1 <= l0 <= l && u <= |s|
    requires c / 2 == l && 2 * l <= c <= u
    requires HeapExcept(dir, s, l0, u, l)
    requires l > l0 ==> forall j :: 2 * l <= j <= u && j <= 2 * l + 1 ==> Above(dir, Key(s, l / 2), Key(s, j))
    requires forall j :: 2 * l <= j <= u && j <= 2 * l + 1 ==> Above(dir, Key(s, c), Key(s, j))
    requires Above(dir, Key(s, c), Key(s, l))
    ensures HeapExcept(dir, Swap(s, l, c), l0, u, c)
    ensures forall j :: 2 * c <= j <= u && j <= 2 * c + 1 ==> Above(dir, Key(Swap(s, l, c), c / 2), Key(Swap(s, l, c), j))
  {
    var t := Swap(s, l, c);
    forall j | 2 * l0 <= j <= u && j / 2 != c
      ensures Above(dir, Key(t, j / 2), Key(t, j))
    {
      if j == c {
      } else if j == l {
        assert Key(t, l / 2) == Key(s, l / 2);
      } else if j / 2 == l {
        assert Key(t, j) == Key(s, j);
      } else {
        assert Key(t, j) == Key(s, j) && Key(t, j / 2) == Key(s, j / 2);
      }
    }
    forall j | 2 * c <= j <= u && j <= 2 * c + 1
      ensures Above(dir, Key(t, c / 2), Key(t, j))
    {
      assert j / 2 == c;
      assert Key(t, j) == Key(s, j);
    }
  }

  /** One turn of _hsort's second loop before the sift: the heap's top
      (above every entry of positions 1 .. i) is swapped to position i,
      behind the heap, which keeps the sorted tail in order. */
  method ExtractTop(a: array<FaceInfo>, i: int, dir: int)
    requires dir == 0 || dir == 1
    requires 2 <= i <= a.Length
    requires Heap(dir, a[..], 1, i)
    requires forall p, q :: i <= p < q < a.Length ==> Above(dir, a[q].zd, a[p].zd)
    requires forall q, x :: i <= q < a.Length && x in a[..i] ==> Above(dir, a[q].zd, x.zd)
    modifies a
    ensures multiset(a[..]) == old(multiset(a[..]))
    ensures HeapExcept(dir, a[..], 1, i - 1, 1)
    ensures forall p, q :: i - 1 <= p < q < a.Length ==> Above(dir, a[q].zd, a[p].zd)
    ensures forall q, x :: i - 1 <= q < a.Length && x in a[..i - 1] ==> Above(dir, a[q].zd, x.zd)
  {
    ghost var s := a[..];
    a[0], a[i - 1] := a[i - 1], a[0];
    assert a[..] == Swap(s, 1, i);
    ExtractTopKeeps(dir, s, i);
  }

  /** The top of the heap over positions 1 .. i is above each of them. */
  lemma TopAboveAll(dir: int, s: seq<FaceInfo>, i: int)
    requires dir == 0 || dir == 1
    requires 1 <= i <= |s| && Heap(dir, s, 1, i)
    ensures forall x :: x in s[..i] ==> Above(dir, s[0].zd, x.zd)
  {
    forall x | x in s[..i]
      ensures Above(dir, s[0].zd, x.zd)
    {
      var k :| 0 <= k < i && s[k] == x;
      HeapTop(dir, s, i, k + 1);
    }
  }

  /** Every entry of the first i-1 positions after the swap was among the
      first i before it. */
  lemma SwapFront(s: seq<FaceInfo>, i: int)
    requires 2 <= i <= |s|
    ensures forall x :: x in Swap(s, 1, i)[..i - 1] ==> x in s[..i]
  {
    var t := Swap(s, 1, i);
    forall x | x in t[..i - 1]
      ensures x in s[..i]
    {
      var k :| 0 <= k < i - 1 && t[k] == x;
      if k == 0 {
        assert x == s[i - 1];
      } else {
        assert x == s[k];
      }
    }
  }

  /** What the swap of ExtractTop keeps, stated on sequences. */
  lemma ExtractTopKeeps(dir: int, s: seq<FaceInfo>, i: int)
    requires dir == 0 || dir == 1
    requires 2 <= i <= |s|
    requires Heap(dir, s, 1, i)
    requires forall p, q :: i <= p < q < |s| ==> Above(dir, s[q].zd, s[p].zd)
    requires forall q, x :: i <= q < |s| && x in s[..i] ==> Above(dir, s[q].zd, x.zd)
    ensures HeapExcept(dir, Swap(s, 1, i), 1, i - 1, 1)
    ensures forall p, q :: i - 1 <= p < q < |s| ==> Above(dir, Swap(s, 1, i)[q].zd, Swap(s, 1, i)[p].zd)
    ensures forall q, x :: i - 1 <= q < |s| && x in Swap(s, 1, i)[..i - 1] ==> Above(dir, Swap(s, 1, i)[q].zd, x.zd)
  {
    var t := Swap(s, 1, i);
    TopAboveAll(dir, s, i);
    SwapFront(s, i);
    assert s[0] in s[..i];
    forall j | 2 <= j <= i - 1 && j / 2 != 1
      ensures Above(dir, Key(t, j / 2), Key(t, j))
    {
      assert Key(t, j) == Key(s, j) && Key(t, j / 2) == Key(s, j / 2);
    }
    forall p, q | i - 1 <= p < q < |s|
      ensures Above(dir, t[q].zd, t[p].zd)
    {
      assert t[q] == s[q];
      if p == i - 1 {
        assert t[p] == s[0];
      } else {
        assert t[p] == s[p];
      }
    }
  }

  /** One turn of _hsort's second loop: the top goes behind the heap over
      positions 1 .. i, and the sift restores the heap over 1 .. i-1. */
  method SortStep(a: array<FaceInfo>, i: int, dir: int)
    requires dir == 0 || dir == 1
    requires 2 <= i <= a.Length
    requires Heap(dir, a[..], 1, i)
    requires forall p, q :: i <= p < q < a.Length ==> Above(dir, a[q].zd, a[p].zd)
    requires forall q, x :: i <= q < a.Length && x in a[..i] ==> Above(dir, a[q].zd, x.zd)
    modifies a
    ensures multiset(a[..]) == old(multiset(a[..]))
    ensures Heap(dir, a[..], 1, i - 1)
    ensures forall p, q :: i - 1 <= p < q < a.Length ==> Above(dir, a[q].zd, a[p].zd)
    ensures forall q, x :: i - 1 <= q < a.Length && x in a[..i - 1] ==> Above(dir, a[q].zd, x.zd)
  {
    ExtractTop(a, i, dir);
    ghost var b := a[..];
    SiftDown(a, 1, i - 1, dir);
    SiftKeepsTail(dir, b, a[..], i - 1);
  }

  /** A sift over positions 1 .. m moves entries only among the first m
      array slots, so the sorted tail behind them keeps its order and stays
      above every entry in front of it. */
  lemma SiftKeepsTail(dir: int, b: seq<FaceInfo>, c: seq<FaceInfo>, m: int)
    requires 1 <= m <= |b| == |c|
    requires forall k :: m <= k < |b| ==> c[k] == b[k]
    requires multiset(c[..m]) == multiset(b[..m])
    requires forall p, q :: m <= p < q < |b| ==> Above(dir, b[q].zd, b[p].zd)
    requires forall q, x :: m <= q < |b| && x in b[..m] ==> Above(dir, b[q].zd, x.zd)
    ensures forall p, q :: m <= p < q < |c| ==> Above(dir, c[q].zd, c[p].zd)
    ensures forall q, x :: m <= q < |c| && x in c[..m] ==> Above(dir, c[q].zd, x.zd)
  {
    forall q, x | m <= q < |c| && x in c[..m]
      ensures Above(dir, c[q].zd, x.zd)
    {
      assert x in multiset(c[..m]);
      assert x in b[..m];
    }
  }

  /** _hsort(base, nel, dir) on the whole array: build the heap bottom-up,
      then repeatedly swap its top behind the heap and sift down. The
      result is a permutation of the input whose keys are ordered the way
      dir asks. */
  method HeapSort(a: array<FaceInfo>, dir: int)
    requires dir == 0 || dir == 1
    modifies a
    ensures multiset(a[..]) == old(multiset(a[..]))
    ensures Sorted(dir, a[..])
  {
    var nel := a.Length;
    var i := nel / 2;
    while i > 0
      invariant 0 <= i <= nel / 2
      invariant Heap(dir, a[..], i + 1, nel)
      invariant multiset(a[..]) == old(multiset(a[..]))
    {
      SiftDown(a, i, nel, dir);
      i := i - 1;
    }
    i := nel;
    while i > 1
      invariant 0 <= i <= nel && (nel > 0 ==> i >= 1)
      invariant i >= 1 ==> Heap(dir, a[..], 1, i)
      invariant multiset(a[..]) == old(multiset(a[..]))
      invariant forall p, q :: i <= p < q < nel ==> Above(dir, a[q].zd, a[p].zd)
      invariant forall q, x :: i <= q < nel && x in a[..i] ==> Above(dir, a[q].zd, x.zd)
    {
      SortStep(a, i, dir);
      i := i - 1;
    }
    if nel > 0 {
      assert a[0] in a[..1];
    }
  }
}

/** plMatMakeOptPal: gathers the requested colours of several materials and,
    when they do not fit in the palette range, reduces them greedily. The
    `_ct` block of the source is modelled by parallel arrays (`rgb`, and
    `next` holding the index of the next block or -1 for null); the linked
    list they form is described by a ghost sequence of block indices. */
module OptPalette {
  import opened Common
  import Materials

  /** The initial bestdist of the chain scan, above every squared distance. */
  const FarInit := 300000000

  /** The indices lo .. hi-1. */
  function RangeSet(lo: int, hi: int): (r: set<int>)
    ensures forall i :: i in r <==> lo <= i < hi
    ensures lo <= hi ==> |r| == hi - lo
    decreases hi - lo
  {
    if lo >= hi then {} else RangeSet(lo, hi - 1) + {hi - 1}
  }

  lemma SubsetCard(a: set<int>, b: set<int>)
    requires a <= b
    ensures |a| <= |b|
  {
    assert b == a + (b - a);
  }

  predicate InRange(s: set<int>, n: int)
  {
    forall y :: y in s ==> 0 <= y < n
  }

  /** One pass of the scan over all blocks from block `cur`, mirroring the
      `for x < nc` loop: an unvisited block closer than 5 is dropped from
      `unv` (marked visited); otherwise the strictly nearest one is kept as
      the next chain member. Tail-recursive in the loop's accumulators. */
  function Scan(c: seq<Rgb>, unv: set<int>, cur: int, x: nat, best: int, bd: int): (r: (set<int>, int))
    requires 0 <= cur < |c| && x <= |c| && InRange(unv, |c|)
    requires best == -1 || (0 <= best < x && best in unv)
    ensures r.0 <= unv
    ensures forall y :: y in unv && y < x ==> y in r.0
    ensures r.1 == -1 || (0 <= r.1 < |c| && r.1 in r.0)
    decreases |c| - x
  {
    if x == |c| then (unv, best)
    else if x in unv then
      var d := Dist(c[x], c[cur]);
      if d < 5 then Scan(c, unv - {x}, cur, x + 1, best, bd)
      else if d < bd then Scan(c, unv, cur, x + 1, x, d)
      else Scan(c, unv, cur, x + 1, best, bd)
    else Scan(c, unv, cur, x + 1, best, bd)
  }

  /** From block x on, the scan drops exactly the unvisited blocks closer
      than 5 to the current one. */
  lemma {:induction false} ScanDrops(c: seq<Rgb>, unv: set<int>, cur: int, x: nat, best: int, bd: int, y: int)
    requires 0 <= cur < |c| && x <= |c| && InRange(unv, |c|)
    requires best == -1 || (0 <= best < x && best in unv)
    requires x <= y < |c|
    ensures y in Scan(c, unv, cur, x, best, bd).0 <==> y in unv && Dist(c[y], c[cur]) >= 5
    decreases |c| - x
  {
    if x < |c| {
      if x in unv {
        var d := Dist(c[x], c[cur]);
        if y == x {
          if d < 5 {
            assert y !in unv - {x};
          }
        } else if d < 5 {
          ScanDrops(c, unv - {x}, cur, x + 1, best, bd, y);
        } else if d < bd {
          ScanDrops(c, unv, cur, x + 1, x, d, y);
        } else {
          ScanDrops(c, unv, cur, x + 1, best, bd, y);
        }
      } else if y != x {
        ScanDrops(c, unv, cur, x + 1, best, bd, y);
      }
    }
  }

  /** The scan finds no next block only when nothing unvisited is left
      from x on. */
  lemma {:induction false} ScanNone(c: seq<Rgb>, unv: set<int>, cur: int, x: nat, best: int, bd: int)
    requires 0 <= cur < |c| && x <= |c| && InRange(unv, |c|)
    requires best == -1 || (0 <= best < x && best in unv)
    requires best == -1 ==> bd == FarInit
    ensures var r := Scan(c, unv, cur, x, best, bd);
            r.1 == -1 ==> best == -1 && forall y :: y in r.0 ==> y < x
    decreases |c| - x
  {
    if x < |c| {
      if x in unv {
        var d := Dist(c[x], c[cur]);
        if d < 5 {
          ScanNone(c, unv - {x}, cur, x + 1, best, bd);
        } else if d < bd {
          ScanNone(c, unv, cur, x + 1, x, d);
        } else {
          ScanNone(c, unv, cur, x + 1, best, bd);
        }
      } else {
        ScanNone(c, unv, cur, x + 1, best, bd);
      }
    }
  }

  /** The next block the scan picks is, among the blocks it keeps from x on,
      one at least distance, and any earlier one there is strictly farther. */
  lemma ScanNearest(c: seq<Rgb>, unv: set<int>, cur: int, x: nat, best: int, bd: int)
    requires 0 <= cur < |c| && x <= |c| && InRange(unv, |c|)
    requires best == -1 || (0 <= best < x && best in unv && bd == Dist(c[best], c[cur]))
    requires best == -1 ==> bd == FarInit
    ensures var r := Scan(c, unv, cur, x, best, bd);
            r.1 != -1 ==>
              && Dist(c[r.1], c[cur]) <= bd
              && (r.1 != best ==> x <= r.1 && Dist(c[r.1], c[cur]) < bd)
              && (forall y :: y in r.0 && x <= y ==> Dist(c[r.1], c[cur]) <= Dist(c[y], c[cur]))
              && (forall y :: y in r.0 && x <= y < r.1 ==> Dist(c[r.1], c[cur]) < Dist(c[y], c[cur]))
  {
    ScanPick(c, unv, cur, x, best, bd);
    ScanLeast(c, unv, cur, x, best, bd);
    ScanFirstLeast(c, unv, cur, x, best, bd);
  }

  /** The pick is no farther than the best so far, and a new pick comes
      from x on and is strictly nearer. */
  lemma {:induction false} ScanPick(c: seq<Rgb>, unv: set<int>, cur: int, x: nat, best: int, bd: int)
    requires 0 <= cur < |c| && x <= |c| && InRange(unv, |c|)
    requires best == -1 || (0 <= best < x && best in unv && bd == Dist(c[best], c[cur]))
    requires best == -1 ==> bd == FarInit
    ensures var r := Scan(c, unv, cur, x, best, bd);
            r.1 != -1 ==>
              && Dist(c[r.1], c[cur]) <= bd
              && (r.1 != best ==> x <= r.1 && Dist(c[r.1], c[cur]) < bd)
    decreases |c| - x
  {
    if x < |c| {
      var r := Scan(c, unv, cur, x, best, bd);
      if x in unv {
        var d := Dist(c[x], c[cur]);
        if d < 5 {
          assert r == Scan(c, unv - {x}, cur, x + 1, best, bd);
          ScanPick(c, unv - {x}, cur, x + 1, best, bd);
        } else if d < bd {
          assert r == Scan(c, unv, cur, x + 1, x, d);
          ScanPick(c, unv, cur, x + 1, x, d);
        } else {
          assert r == Scan(c, unv, cur, x + 1, best, bd);
          ScanPick(c, unv, cur, x + 1, best, bd);
        }
      } else {
        assert r == Scan(c, unv, cur, x + 1, best, bd);
        ScanPick(c, unv, cur, x + 1, best, bd);
      }
    }
  }

  /** No kept block from x on is nearer than the pick. */
  lemma {:induction false} ScanLeast(c: seq<Rgb>, unv: set<int>, cur: int, x: nat, best: int, bd: int)
    requires 0 <= cur < |c| && x <= |c| && InRange(unv, |c|)
    requires best == -1 || (0 <= best < x && best in unv && bd == Dist(c[best], c[cur]))
    requires best == -1 ==> bd == FarInit
    ensures var r := Scan(c, unv, cur, x, best, bd);
            r.1 != -1 ==> forall y :: y in r.0 && x <= y ==> Dist(c[r.1], c[cur]) <= Dist(c[y], c[cur])
    decreases |c| - x
  {
    if x < |c| {
      var r := Scan(c, unv, cur, x, best, bd);
      if x in unv {
        var d := Dist(c[x], c[cur]);
        if d < 5 {
          assert r == Scan(c, unv - {x}, cur, x + 1, best, bd);
          ScanLeast(c, unv - {x}, cur, x + 1, best, bd);
        } else if d < bd {
          assert r == Scan(c, unv, cur, x + 1, x, d);
          ScanLeast(c, unv, cur, x + 1, x, d);
          ScanPick(c, unv, cur, x + 1, x, d);
        } else {
          assert r == Scan(c, unv, cur, x + 1, best, bd);
          ScanLeast(c, unv, cur, x + 1, best, bd);
          ScanPick(c, unv, cur, x + 1, best, bd);
        }
      } else {
        assert r == Scan(c, unv, cur, x + 1, best, bd);
        ScanLeast(c, unv, cur, x + 1, best, bd);
      }
    }
  }

  /** Every kept block from x on before the pick is strictly farther. */
  lemma {:induction false} ScanFirstLeast(c: seq<Rgb>, unv: set<int>, cur: int, x: nat, best: int, bd: int)
    requires 0 <= cur < |c| && x <= |c| && InRange(unv, |c|)
    requires best == -1 || (0 <= best < x && best in unv && bd == Dist(c[best], c[cur]))
    requires best == -1 ==> bd == FarInit
    ensures var r := Scan(c, unv, cur, x, best, bd);
            r.1 != -1 ==> forall y :: y in r.0 && x <= y < r.1 ==> Dist(c[r.1], c[cur]) < Dist(c[y], c[cur])
    decreases |c| - x
  {
    if x < |c| {
      var r := Scan(c, unv, cur, x, best, bd);
      if x in unv {
        var d := Dist(c[x], c[cur]);
        if d < 5 {
          assert r == Scan(c, unv - {x}, cur, x + 1, best, bd);
          ScanFirstLeast(c, unv - {x}, cur, x + 1, best, bd);
        } else if d < bd {
          assert r == Scan(c, unv, cur, x + 1, x, d);
          ScanFirstLeast(c, unv, cur, x + 1, x, d);
          ScanPick(c, unv, cur, x + 1, x, d);
        } else {
          assert r == Scan(c, unv, cur, x + 1, best, bd);
          ScanFirstLeast(c, unv, cur, x + 1, best, bd);
          ScanPick(c, unv, cur, x + 1, best, bd);
        }
      } else {
        assert r == Scan(c, unv, cur, x + 1, best, bd);
        ScanFirstLeast(c, unv, cur, x + 1, best, bd);
      }
    }
  }

  /** The block chain of the first phase: starting from the current block,
      repeatedly drop the close blocks and move on to the nearest remaining
      one. `chain` holds the blocks already linked, ending in `cur`. */
  function Chain(c: seq<Rgb>, unv: set<int>, cur: int, chain: seq<int>): (r: seq<int>)
    requires 0 <= cur < |c| && InRange(unv, |c|)
    ensures |r| >= |chain| && r[..|chain|] == chain
    ensures forall i :: |chain| <= i < |r| ==> 0 <= r[i] < |c| && r[i] in unv
    decreases |unv|
  {
    var s := Scan(c, unv, cur, 0, -1, FarInit);
    if s.1 == -1 then chain
    else
      SubsetCard(s.0, unv);
      var r := Chain(c, s.0 - {s.1}, s.1, chain + [s.1]);
      assert r[..|chain|] == (r[..|chain| + 1])[..|chain|];
      r
  }

  predicate Distinct(s: seq<int>)
  {
    forall i, j :: 0 <= i < j < |s| ==> s[i] != s[j]
  }

  /** The chain never repeats a block. */
  lemma {:induction false} ChainDistinct(c: seq<Rgb>, unv: set<int>, cur: int, chain: seq<int>)
    requires 0 <= cur < |c| && InRange(unv, |c|)
    requires Distinct(chain) && forall i :: 0 <= i < |chain| ==> chain[i] !in unv
    ensures Distinct(Chain(c, unv, cur, chain))
    decreases |unv|
  {
    var s := Scan(c, unv, cur, 0, -1, FarInit);
    if s.1 != -1 {
      SubsetCard(s.0, unv);
      var chain' := chain + [s.1];
      assert forall i :: 0 <= i < |chain| ==> chain[i] != s.1;
      ChainDistinct(c, s.0 - {s.1}, s.1, chain');
    }
  }

  /** Block y is within squared distance 5 of some block of the chain. */
  predicate NearChain(c: seq<Rgb>, y: int, chain: seq<int>)
    requires 0 <= y < |c|
    requires forall i :: 0 <= i < |chain| ==> 0 <= chain[i] < |c|
  {
    exists i :: 0 <= i < |chain| && Dist(c[y], c[chain[i]]) < 5
  }

  /** Every unvisited block either joins the chain or is dropped for being
      closer than 5 to the chain block that was current when it was seen. */
  lemma {:induction false} ChainCovers(c: seq<Rgb>, unv: set<int>, cur: int, chain: seq<int>, y: int)
    requires 0 <= cur < |c| && InRange(unv, |c|)
    requires |chain| >= 1 && chain[|chain| - 1] == cur
    requires forall i :: 0 <= i < |chain| ==> 0 <= chain[i] < |c|
    requires y in unv
    ensures var r := Chain(c, unv, cur, chain);
            (exists i :: |chain| <= i < |r| && r[i] == y) || NearChain(c, y, r)
    decreases |unv|
  {
    var s := Scan(c, unv, cur, 0, -1, FarInit);
    var r := Chain(c, unv, cur, chain);
    ScanDrops(c, unv, cur, 0, -1, FarInit, y);
    ScanNone(c, unv, cur, 0, -1, FarInit);
    if s.1 == -1 {
      assert y !in s.0;
      assert Dist(c[y], c[r[|chain| - 1]]) < 5;
    } else {
      SubsetCard(s.0, unv);
      var chain' := chain + [s.1];
      if y == s.1 {
        assert r[|chain|] == y;
      } else if y in s.0 {
        ChainCovers(c, s.0 - {s.1}, s.1, chain', y);
        var r' := Chain(c, s.0 - {s.1}, s.1, chain');
        assert r' == r;
        if exists i :: |chain'| <= i < |r| && r[i] == y {
          var i :| |chain'| <= i < |r| && r[i] == y;
          assert |chain| <= i;
        }
      } else {
        assert Dist(c[y], c[cur]) < 5;
        assert r[|chain| - 1] == cur;
        assert Dist(c[y], c[r[|chain| - 1]]) < 5;
      }
    }
  }

  /** The scan that follows `cur` is by nearest neighbour: the block chosen
      next is, among the blocks still unvisited and not dropped, one nearest
      to `cur`, the lowest-numbered on a tie; and there is no next exactly
      when nothing remains. */
  lemma NextIsNearest(c: seq<Rgb>, unv: set<int>, cur: int)
    requires 0 <= cur < |c| && InRange(unv, |c|)
    ensures var s := Scan(c, unv, cur, 0, -1, FarInit);
            && (s.1 == -1 <==> s.0 == {})
            && (forall y :: y in s.0 <==> y in unv && Dist(c[y], c[cur]) >= 5)
            && (s.1 != -1 ==> forall y :: y in s.0 ==> Dist(c[s.1], c[cur]) <= Dist(c[y], c[cur]))
            && (s.1 != -1 ==> forall y :: y in s.0 && y < s.1 ==> Dist(c[s.1], c[cur]) < Dist(c[y], c[cur]))
  {
    var s := Scan(c, unv, cur, 0, -1, FarInit);
    ScanNone(c, unv, cur, 0, -1, FarInit);
    ScanNearest(c, unv, cur, 0, -1, FarInit);
    if s.1 == -1 {
      assert forall y :: y !in s.0;
      assert s.0 == {};
    }
    forall y
      ensures y in s.0 <==> y in unv && Dist(c[y], c[cur]) >= 5
    {
      if 0 <= y < |c| {
        ScanDrops(c, unv, cur, 0, -1, FarInit, y);
      }
    }
  }

  /** Colours of the chain's blocks, in chain order. */
  function ColorsOf(c: seq<Rgb>, chain: seq<int>): (cs: seq<Rgb>)
    requires forall i :: 0 <= i < |chain| ==> 0 <= chain[i] < |c|
    ensures |cs| == |chain|
  {
    seq(|chain|, i requires 0 <= i < |chain| => c[chain[i]])
  }

  /** The chain of all colours, starting at block 0. */
  function ChainOf(c: seq<Rgb>): (chain: seq<int>)
    requires |c| >= 1
    ensures |chain| >= 1 && chain[0] == 0
    ensures forall i :: 0 <= i < |chain| ==> 0 <= chain[i] < |c|
  {
    Chain(c, RangeSet(1, |c|), 0, [0])
  }

  /** The first phase on the gathered colours: the chain starts at colour 0,
      repeats none and leaves out only colours within distance 5 of it. */
  lemma ChainOfProperties(c: seq<Rgb>, y: int)
    requires |c| >= 1 && 0 <= y < |c|
    ensures Distinct(ChainOf(c))
    ensures (exists i :: 0 <= i < |ChainOf(c)| && ChainOf(c)[i] == y) || NearChain(c, y, ChainOf(c))
  {
    ChainDistinct(c, RangeSet(1, |c|), 0, [0]);
    if y != 0 {
      ChainCovers(c, RangeSet(1, |c|), 0, [0], y);
    } else {
      assert ChainOf(c)[0] == 0;
    }
  }

  /** Channel-wise floor average (the `>>1` of two bytes). */
  function Avg(a: Rgb, b: Rgb): Rgb
  {
    Rgb((a.r + b.r) / 2, (a.g + b.g) / 2, (a.b + b.b) / 2)
  }

  /** Distance between adjacent colours k and k+1. */
  function PairDist(cs: seq<Rgb>, k: int): nat
    requires 0 <= k < |cs| - 1
  {
    Dist(cs[k], cs[k + 1])
  }

  /** The walk along the chain that finds the adjacent pair to merge
      (update only when strictly closer). */
  function Closest(cs: seq<Rgb>, k: nat, best: nat, bd: int): (b: nat)
    requires |cs| >= 2 && best < |cs| - 1 && k <= |cs| - 1
    ensures b < |cs| - 1
    decreases |cs| - k
  {
    if k == |cs| - 1 then best
    else
      var d := PairDist(cs, k);
      if bd > d then Closest(cs, k + 1, k, d) else Closest(cs, k + 1, best, bd)
  }

  function FirstClosest(cs: seq<Rgb>): (b: nat)
    requires |cs| >= 2
    ensures b < |cs| - 1
  {
    Closest(cs, 0, 0, PairDist(cs, 0))
  }

  lemma {:induction false} ClosestSpec(cs: seq<Rgb>, k: nat, best: nat, bd: int)
    requires |cs| >= 2 && best < |cs| - 1 && k <= |cs| - 1
    requires best <= k && bd == PairDist(cs, best)
    requires forall j :: 0 <= j < k ==> bd <= PairDist(cs, j)
    requires forall j :: 0 <= j < best ==> bd < PairDist(cs, j)
    ensures var b := Closest(cs, k, best, bd);
            && (forall j :: 0 <= j < |cs| - 1 ==> PairDist(cs, b) <= PairDist(cs, j))
            && (forall j :: 0 <= j < b ==> PairDist(cs, b) < PairDist(cs, j))
    decreases |cs| - k
  {
    if k < |cs| - 1 {
      var d := PairDist(cs, k);
      if bd > d {
        ClosestSpec(cs, k + 1, k, d);
      } else {
        ClosestSpec(cs, k + 1, best, bd);
      }
    }
  }

  /** The pair merged is the first adjacent pair at least distance. */
  lemma FirstClosestIsFirstMinimum(cs: seq<Rgb>)
    requires |cs| >= 2
    ensures var b := FirstClosest(cs);
            && (forall j :: 0 <= j < |cs| - 1 ==> PairDist(cs, b) <= PairDist(cs, j))
            && (forall j :: 0 <= j < b ==> PairDist(cs, b) < PairDist(cs, j))
  {
    ClosestSpec(cs, 0, 0, PairDist(cs, 0));
  }

  /** One step of the second phase: the first closest adjacent pair is
      replaced by its average. */
  function MergeClosest(cs: seq<Rgb>): (r: seq<Rgb>)
    requires |cs| >= 2
    ensures |r| == |cs| - 1
  {
    var b := FirstClosest(cs);
    cs[..b] + [Avg(cs[b], cs[b + 1])] + cs[b + 2..]
  }

  /** A merge shortens the chain by one, keeps the colours before the pair,
      puts the pair's average in its place and shifts the rest down. */
  lemma MergeClosestEntries(cs: seq<Rgb>, i: int)
    requires |cs| >= 2 && 0 <= i < |cs| - 1
    ensures var b := FirstClosest(cs);
            && (i < b ==> MergeClosest(cs)[i] == cs[i])
            && (i == b ==> MergeClosest(cs)[i] == Avg(cs[b], cs[b + 1]))
            && (i > b ==> MergeClosest(cs)[i] == cs[i + 1])
  {
  }

  /** The second phase: merge until the chain fits in `len` slots. */
  function Reduce(cs: seq<Rgb>, len: int): (r: seq<Rgb>)
    requires len >= 1
    ensures |r| == if |cs| <= len then |cs| else len
    decreases |cs|
  {
    if |cs| <= len then cs else Reduce(MergeClosest(cs), len)
  }

  /** The colours plMatMakeOptPal writes for the gathered colours `all` and
      a range of `len` slots. */
  function OptColors(all: seq<Rgb>, len: int): (out: seq<Rgb>)
    requires len >= 1
    ensures |out| <= len
    ensures |all| <= len ==> out == all
  {
    if |all| <= len then all else Reduce(ColorsOf(all, ChainOf(all)), len)
  }

  /** The colours are written verbatim when they fit, else a palette of
      exactly `len` colours unless the first phase already dropped enough. */
  lemma OptColorsLength(all: seq<Rgb>, len: int)
    requires len >= 1
    ensures |all| <= len ==> OptColors(all, len) == all
    ensures |all| > len ==> |OptColors(all, len)| == if |ChainOf(all)| <= len then |ChainOf(all)| else len
    ensures |all| > len && |ChainOf(all)| > len ==> |OptColors(all, len)| == len
  {
  }

  /** The requested colours of the materials, in material order; a null
      material or one without colours contributes none. */
  function AllColors(ms: seq<Materials.Material?>): seq<Rgb>
    reads ms
  {
    if |ms| == 0 then []
    else
      var m := ms[|ms| - 1];
      AllColors(ms[..|ms| - 1]) + (if m == null || m.requestedColors.None? then [] else m.requestedColors.value)
  }

  /** The list the block chain forms, by index: it starts at block 0, visits
      each of its blocks once, each `next` points to the following block and
      the last one's is -1 (null). */
  predicate Linked(nxt: seq<int>, chain: seq<int>, n: int)
  {
    && |nxt| == n && 1 <= |chain| && chain[0] == 0
    && (forall i :: 0 <= i < |chain| ==> 0 <= chain[i] < n)
    && Distinct(chain)
    && (forall i {:trigger nxt[chain[i]]} :: 0 <= i < |chain| - 1 ==> nxt[chain[i]] == chain[i + 1])
    && nxt[chain[|chain| - 1]] == -1
  }

  /** The `for x < nc` scan from block `current`: marks the close blocks
      visited and returns the nearest remaining one (-1 if none) and how
      many blocks it dropped. */
  method ScanBlocks(rgb: array<Rgb>, visited: array<bool>, ghost c: seq<Rgb>, current: int, ghost unv: set<int>)
    returns (newnext: int, dropped: int, ghost rest: set<int>)
    requires rgb[..] == c
    requires visited.Length == rgb.Length && 0 <= current < rgb.Length
    requires InRange(unv, rgb.Length) && current !in unv
    requires forall y :: 0 <= y < rgb.Length ==> (visited[y] <==> y !in unv)
    modifies visited
    ensures (rest, newnext) == Scan(c, unv, current, 0, -1, FarInit)
    ensures forall y :: 0 <= y < rgb.Length ==> (visited[y] <==> y !in rest)
    ensures rest <= unv && |rest| == |unv| - dropped
  {
    newnext := -1;
    dropped := 0;
    rest := unv;
    var bestdist := FarInit;
    var x := 0;
    while x < rgb.Length
      invariant 0 <= x <= rgb.Length
      invariant rest <= unv && InRange(rest, rgb.Length)
      invariant newnext == -1 || (0 <= newnext < x && newnext in rest)
      invariant Scan(c, unv, current, 0, -1, FarInit) == Scan(c, rest, current, x, newnext, bestdist)
      invariant forall y :: 0 <= y < rgb.Length ==> (visited[y] <==> y !in rest)
      invariant |rest| == |unv| - dropped
    {
      if !visited[x] {
        var thisdist := Dist(rgb[x], rgb[current]);
        if thisdist < 5 {
          visited[x] := true;
          dropped := dropped + 1;
          rest := rest - {x};
        } else if thisdist < bestdist {
          bestdist := thisdist;
          newnext := x;
        }
      }
      x := x + 1;
    }
  }

  /** Links the chain's last block to `newnext`, an unlinked block. */
  method LinkStep(next: array<int>, ghost chain: seq<int>, ghost unv: set<int>, last: int, newnext: int)
    requires |chain| >= 1 && last == chain[|chain| - 1] && Distinct(chain) && InRange(unv, next.Length) && newnext in unv
    requires forall i :: 0 <= i < |chain| ==> 0 <= chain[i] < next.Length && chain[i] !in unv
    requires forall i {:trigger next[chain[i]]} :: 0 <= i < |chain| - 1 ==> next[chain[i]] == chain[i + 1]
    requires forall y :: y in unv ==> next[y] == -1
    modifies next
    ensures Distinct(chain + [newnext])
    ensures forall i {:trigger next[(chain + [newnext])[i]]} :: 0 <= i < |chain| ==> next[(chain + [newnext])[i]] == (chain + [newnext])[i + 1]
    ensures forall y :: y in unv - {newnext} ==> next[y] == -1
    ensures next[newnext] == -1
  {
    next[last] := newnext;
    assert forall i :: 0 <= i < |chain| ==> chain[i] != newnext;
  }

  /** The state the first phase keeps between two scans: `chain` is the
      list built so far, ending at `current`, whose links are set except the
      last; `unv` holds the blocks neither linked nor dropped, which are
      exactly the unvisited ones; `count` counts both. */
  ghost predicate ChainState(c: seq<Rgb>, vis: seq<bool>, nxt: seq<int>, chain: seq<int>, unv: set<int>, current: int, count: int)
  {
    && |vis| == |c| && |nxt| == |c|
    && 0 <= current < |c| && |chain| >= 1 && chain[|chain| - 1] == current && chain[0] == 0
    && (forall i :: 0 <= i < |chain| ==> 0 <= chain[i] < |c| && chain[i] !in unv)
    && Distinct(chain)
    && InRange(unv, |c|)
    && (forall y :: 0 <= y < |c| && y != current ==> (vis[y] <==> y !in unv))
    && (forall i {:trigger nxt[chain[i]]} :: 0 <= i < |chain| - 1 ==> nxt[chain[i]] == chain[i + 1])
    && nxt[current] == -1
    && (forall y :: y in unv ==> nxt[y] == -1)
    && count == |chain| + |unv|
  }

  /** One pass of the first phase's outer loop: scan from `current`, then
      either link the nearest remaining block and move on to it, or stop.
      `c` is the content of rgb, which the phase only reads. */
  method ChainStep(rgb: array<Rgb>, visited: array<bool>, next: array<int>, ghost c: seq<Rgb>,
                   current: int, ghost chain: seq<int>, ghost unv: set<int>, count: int)
    returns (current': int, ghost chain': seq<int>, ghost unv': set<int>, count': int, go: bool)
    requires rgb[..] == c
    requires ChainState(c, visited[..], next[..], chain, unv, current, count)
    modifies visited, next
    ensures ChainState(c, visited[..], next[..], chain', unv', current', count')
    ensures go ==> |unv'| < |unv| && Chain(c, unv, current, chain) == Chain(c, unv', current', chain')
    ensures !go ==> unv' == {} && Chain(c, unv, current, chain) == chain' && chain' == chain
  {
    ghost var vis0 := visited[..];
    ghost var nxt0 := next[..];
    visited[current] := true;
    ScanReady(c, vis0, visited[..], nxt0, chain, unv, current, count);
    var newnext, dropped;
    ghost var rest;
    newnext, dropped, rest := ScanBlocks(rgb, visited, c, current, unv);
    count' := count - dropped;
    ChainUnfold(c, unv, current, chain);
    if newnext != -1 {
      LinkStep(next, chain, rest, current, newnext);
      ChainGrows(c, vis0, nxt0, visited[..], next[..], chain, unv, rest, current, newnext, count, dropped);
      current', chain', unv' := newnext, chain + [newnext], rest - {newnext};
      go := true;
    } else {
      ScanNone(c, unv, current, 0, -1, FarInit);
      ChainStops(c, vis0, nxt0, visited[..], chain, unv, rest, current, count, dropped);
      current', chain', unv' := current, chain, {};
      go := false;
    }
  }

  /** Marking the current block visited leaves exactly the blocks of `unv`
      unvisited, as the scan expects. */
  lemma ScanReady(c: seq<Rgb>, vis0: seq<bool>, vis: seq<bool>, nxt: seq<int>, chain: seq<int>, unv: set<int>, current: int, count: int)
    requires ChainState(c, vis0, nxt, chain, unv, current, count)
    requires vis == vis0[current := true]
    ensures current !in unv && InRange(unv, |c|) && |vis| == |c|
    ensures forall y :: 0 <= y < |c| ==> (vis[y] <==> y !in unv)
  {
    assert chain[|chain| - 1] == current;
  }

  /** One unfolding of Chain: the scan from `current` either yields the
      next block, with fewer blocks left, or ends the chain. */
  lemma ChainUnfold(c: seq<Rgb>, unv: set<int>, current: int, chain: seq<int>)
    requires 0 <= current < |c| && InRange(unv, |c|)
    ensures var s := Scan(c, unv, current, 0, -1, FarInit);
            && (s.1 != -1 ==> |s.0 - {s.1}| < |unv| && Chain(c, unv, current, chain) == Chain(c, s.0 - {s.1}, s.1, chain + [s.1]))
            && (s.1 == -1 ==> Chain(c, unv, current, chain) == chain)
  {
    var s := Scan(c, unv, current, 0, -1, FarInit);
    SubsetCard(s.0, unv);
  }

  /** Linking the nearest remaining block `newnext` extends the state of
      the first phase by one block. */
  lemma ChainGrows(c: seq<Rgb>, vis0: seq<bool>, nxt0: seq<int>, vis: seq<bool>, nxt: seq<int>,
                   chain: seq<int>, unv: set<int>, rest: set<int>, current: int, newnext: int, count: int, dropped: int)
    requires ChainState(c, vis0, nxt0, chain, unv, current, count)
    requires |vis| == |c| && |nxt| == |c|
    requires rest <= unv && |rest| == |unv| - dropped && newnext in rest
    requires forall y :: 0 <= y < |c| ==> (vis[y] <==> y !in rest)
    requires Distinct(chain + [newnext])
    requires forall i {:trigger nxt[(chain + [newnext])[i]]} :: 0 <= i < |chain| ==> nxt[(chain + [newnext])[i]] == (chain + [newnext])[i + 1]
    requires forall y :: y in rest - {newnext} ==> nxt[y] == -1
    requires nxt[newnext] == -1
    ensures ChainState(c, vis, nxt, chain + [newnext], rest - {newnext}, newnext, count - dropped)
  {
    var chain' := chain + [newnext];
    assert |rest - {newnext}| == |rest| - 1;
    forall i | 0 <= i < |chain'|
      ensures 0 <= chain'[i] < |c| && chain'[i] !in rest - {newnext}
    {
      if i < |chain| {
        assert chain'[i] == chain[i];
      }
    }
    forall i {:trigger nxt[chain'[i]]} | 0 <= i < |chain'| - 1
      ensures nxt[chain'[i]] == chain'[i + 1]
    {
    }
  }

  /** With no block left to link, the first phase's state carries over
      with the emptied set. */
  lemma ChainStops(c: seq<Rgb>, vis0: seq<bool>, nxt: seq<int>, vis: seq<bool>,
                   chain: seq<int>, unv: set<int>, rest: set<int>, current: int, count: int, dropped: int)
    requires ChainState(c, vis0, nxt, chain, unv, current, count)
    requires |vis| == |c| && rest <= unv && |rest| == |unv| - dropped
    requires forall y :: y in rest ==> y < 0
    requires forall y :: 0 <= y < |c| ==> (vis[y] <==> y !in rest)
    ensures rest == {}
    ensures ChainState(c, vis, nxt, chain, {}, current, count - dropped)
  {
    forall y | y in rest
      ensures false
    {
      assert false;
    }
  }

  /** The first phase on the blocks: `rgb` is only read. Returns the `next`
      links and the count of blocks left in the chain (numColors). */
  method BuildChain(rgb: array<Rgb>) returns (next: array<int>, ghost chain: seq<int>, count: int)
    requires rgb.Length >= 1
    ensures fresh(next)
    ensures chain == ChainOf(rgb[..])
    ensures Linked(next[..], chain, rgb.Length)
    ensures count == |chain|
  {
    var n := rgb.Length;
    var visited := new bool[n](_ => false);
    next := new int[n](_ => -1);
    var current;
    current, chain, count := RunChain(rgb, visited, next);
    ghost var nx := next[..];
    next[current] := -1;
    assert next[..] == nx;
    ChainStateLinked(rgb[..], visited[..], next[..], chain, current, count);
  }

  /** The outer loop of the first phase, from the chain [0] with every
      other block unvisited until no block is left. */
  method RunChain(rgb: array<Rgb>, visited: array<bool>, next: array<int>)
    returns (current: int, ghost chain: seq<int>, count: int)
    requires rgb.Length >= 1 && visited.Length == rgb.Length && next.Length == rgb.Length
    requires forall y :: 0 <= y < rgb.Length ==> !visited[y] && next[y] == -1
    modifies visited, next
    ensures ChainState(rgb[..], visited[..], next[..], chain, {}, current, count)
    ensures chain == ChainOf(rgb[..])
  {
    var n := rgb.Length;
    ghost var c := rgb[..];
    count := n;
    current := 0;
    chain := [0];
    ghost var unv := RangeSet(1, n);
    var go := true;
    while go
      invariant rgb[..] == c
      invariant ChainState(c, visited[..], next[..], chain, unv, current, count)
      invariant ChainOf(c) == if go then Chain(c, unv, current, chain) else chain
      invariant !go ==> unv == {}
      decreases |unv| + (if go then 1 else 0)
    {
      current, chain, unv, count, go := ChainStep(rgb, visited, next, c, current, chain, unv, count);
    }
  }

  /** Once no block is left unlinked, the first phase's state is a list of
      count blocks. */
  lemma ChainStateLinked(c: seq<Rgb>, vis: seq<bool>, nxt: seq<int>, chain: seq<int>, current: int, count: int)
    requires ChainState(c, vis, nxt, chain, {}, current, count)
    ensures Linked(nxt, chain, |c|) && count == |chain|
  {
  }

  /** The walk of one merge step: the block at the front of the first
      closest adjacent pair of the list (the update is a strict `>`). */
  method FindClosest(rgb: array<Rgb>, next: array<int>, ghost chain: seq<int>) returns (best: int, ghost bk: int)
    requires Linked(next[..], chain, rgb.Length) && |chain| >= 2
    ensures bk == FirstClosest(ColorsOf(rgb[..], chain)) && best == chain[bk]
  {
    ghost var cs := ColorsOf(rgb[..], chain);
    assert next[chain[0]] == chain[1];
    var bestdist := Dist(rgb[0], rgb[next[0]]);
    best := 0;
    var cp := 0;
    ghost var k := 0;
    bk := 0;
    while next[cp] != -1
      invariant 0 <= k < |chain| && cp == chain[k]
      invariant 0 <= bk < |chain| - 1 && best == chain[bk]
      invariant bk <= k
      invariant bestdist == PairDist(cs, bk)
      invariant FirstClosest(cs) == Closest(cs, k, bk, bestdist)
      decreases |chain| - k
    {
      var thisdist := Dist(rgb[cp], rgb[next[cp]]);
      if bestdist > thisdist {
        best := cp;
        bestdist := thisdist;
        bk := k;
      }
      cp := next[cp];
      k := k + 1;
    }
    assert k == |chain| - 1;
  }

  /** Splicing block chain[bk+1] out of the list keeps it a list. */
  lemma SpliceLinked(nxt: seq<int>, chain: seq<int>, n: int, bk: int)
    requires Linked(nxt, chain, n) && 0 <= bk < |chain| - 1
    ensures Linked(nxt[chain[bk] := nxt[chain[bk + 1]]], chain[..bk + 1] + chain[bk + 2..], n)
  {
    var chain' := chain[..bk + 1] + chain[bk + 2..];
    SpliceIndex(chain, bk);
    SplicedLinked(nxt, chain, chain', n, bk);
  }

  /** Position i of the spliced list is position i, or i + 1 past bk, of
      the old one. */
  lemma SpliceIndex(chain: seq<int>, bk: int)
    requires 0 <= bk < |chain| - 1
    ensures var chain' := chain[..bk + 1] + chain[bk + 2..];
            |chain'| == |chain| - 1 &&
            forall i :: 0 <= i < |chain'| ==> chain'[i] == chain[if i <= bk then i else i + 1]
  {
  }

  lemma SplicedLinked(nxt: seq<int>, chain: seq<int>, chain': seq<int>, n: int, bk: int)
    requires Linked(nxt, chain, n) && 0 <= bk < |chain| - 1
    requires |chain'| == |chain| - 1
    requires forall i :: 0 <= i < |chain'| ==> chain'[i] == chain[if i <= bk then i else i + 1]
    ensures Linked(nxt[chain[bk] := nxt[chain[bk + 1]]], chain', n)
  {
    var nxt' := nxt[chain[bk] := nxt[chain[bk + 1]]];
    forall i, j | 0 <= i < j < |chain'|
      ensures chain'[i] != chain'[j]
    {
      var i0, j0 := if i <= bk then i else i + 1, if j <= bk then j else j + 1;
      assert chain'[i] == chain[i0] && chain'[j] == chain[j0];
    }
    forall i | 0 <= i < |chain'| - 1
      ensures nxt'[chain'[i]] == chain'[i + 1]
    {
      if i == bk {
        if bk + 2 < |chain| {
          assert nxt[chain[bk + 1]] == chain[bk + 2];
        }
      } else {
        assert chain'[i] != chain[bk];
      }
    }
    if |chain'| - 1 != bk {
      assert chain'[|chain'| - 1] != chain[bk];
    }
  }

  /** Averaging the pair into its first block and splicing out the second
      gives the merged colour sequence. */
  lemma SpliceColors(c: seq<Rgb>, chain: seq<int>, bk: int)
    requires forall i :: 0 <= i < |chain| ==> 0 <= chain[i] < |c|
    requires Distinct(chain) && |chain| >= 2
    requires bk == FirstClosest(ColorsOf(c, chain))
    ensures var c' := c[chain[bk] := Avg(c[chain[bk]], c[chain[bk + 1]])];
            ColorsOf(c', chain[..bk + 1] + chain[bk + 2..]) == MergeClosest(ColorsOf(c, chain))
  {
    var cs := ColorsOf(c, chain);
    var c' := c[chain[bk] := Avg(c[chain[bk]], c[chain[bk + 1]])];
    var chain' := chain[..bk + 1] + chain[bk + 2..];
    assert forall i :: 0 <= i < |chain'| ==> chain'[i] == (if i <= bk then chain[i] else chain[i + 1]);
    var merged := MergeClosest(cs);
    forall i | 0 <= i < |chain'|
      ensures c'[chain'[i]] == merged[i]
    {
      MergeClosestEntries(cs, i);
      if i != bk {
        assert chain'[i] != chain[bk];
      }
    }
  }

  /** One merge step on the blocks: find the first closest adjacent pair by
      walking the list, average it into the first block and splice the
      second out. */
  method MergeStep(rgb: array<Rgb>, next: array<int>, ghost chain: seq<int>) returns (ghost chain': seq<int>)
    requires Linked(next[..], chain, rgb.Length) && |chain| >= 2
    modifies rgb, next
    ensures Linked(next[..], chain', rgb.Length)
    ensures ColorsOf(rgb[..], chain') == MergeClosest(ColorsOf(old(rgb[..]), chain))
  {
    var best, bk := FindClosest(rgb, next, chain);
    assert next[chain[bk]] == chain[bk + 1];
    SpliceLinked(next[..], chain, rgb.Length, bk);
    SpliceColors(rgb[..], chain, bk);
    var nb := next[best];
    rgb[best] := Avg(rgb[best], rgb[nb]);
    next[best] := next[nb];
    chain' := chain[..bk + 1] + chain[bk + 2..];
  }

  /** The final loop: the chain's colours, written one after the other
      from slot `start`. */
  method WriteChain(p: array<Rgb>, start: int, rgb: array<Rgb>, next: array<int>, ghost chain: seq<int>)
    requires Linked(next[..], chain, rgb.Length)
    requires 0 <= start && start + |chain| <= p.Length && p != rgb
    modifies p
    ensures p[..] == old(p[..])[..start] + ColorsOf(rgb[..], chain) + old(p[..])[start + |chain|..]
  {
    var cp := 0;
    var x := start;
    ghost var k := 0;
    while cp != -1
      invariant 0 <= k <= |chain| && x == start + k
      invariant cp == if k < |chain| then chain[k] else -1
      invariant forall i :: 0 <= i < k ==> p[start + i] == rgb[chain[i]]
      invariant forall i :: 0 <= i < p.Length && !(start <= i < start + k) ==> p[i] == old(p[i])
      decreases |chain| - k
    {
      p[x] := rgb[cp];
      x := x + 1;
      cp := next[cp];
      k := k + 1;
    }
    assert p[..] == old(p[..])[..start] + ColorsOf(rgb[..], chain) + old(p[..])[start + |chain|..];
  }

  /** Copies `all` into palette slots start .. start + |all| - 1. */
  method WriteColors(p: array<Rgb>, start: int, all: seq<Rgb>)
    requires 0 <= start && start + |all| <= p.Length
    modifies p
    ensures p[..] == old(p[..])[..start] + all + old(p[..])[start + |all|..]
  {
    var i := 0;
    while i < |all|
      invariant 0 <= i <= |all|
      invariant forall j :: 0 <= j < i ==> p[start + j] == all[j]
      invariant forall j :: 0 <= j < p.Length && !(start <= j < start + i) ==> p[j] == old(p[j])
    {
      p[start + i] := all[i];
      i := i + 1;
    }
    assert p[..] == old(p[..])[..start] + all + old(p[..])[start + |all|..];
  }

  /** The first loop of plMatMakeOptPal: every material without requested
      colours is initialised as plMatInit does, its settings kept
      (Material.PreparedFrom); the others are left exactly as they were. A
      material listed twice is initialised once, so its Shading (the
      floating-point values plMatInit would compute from its settings) is
      the same at each place. */
  method InitMaterials(materials: seq<Materials.Material?>, shadings: seq<Materials.Shading>)
    requires |shadings| == |materials|
    requires forall x :: 0 <= x < |materials| && materials[x] != null ==>
               materials[x].Pending(shadings[x])
    requires forall x, y :: 0 <= x < |materials| && 0 <= y < |materials| && materials[x] != null && materials[x] == materials[y] ==>
               shadings[x] == shadings[y]
    modifies materials
    ensures forall x :: 0 <= x < |materials| && materials[x] != null ==>
              materials[x].Done()
    ensures forall x :: 0 <= x < |materials| && materials[x] != null ==>
              materials[x].PreparedFrom(shadings[x], old(materials[x].Config()), old(materials[x].State()))
  {
    var x := 0;
    while x < |materials|
      invariant 0 <= x <= |materials|
      invariant forall y :: 0 <= y < x && materials[y] != null ==>
                  materials[y].Done()
      invariant forall y :: 0 <= y < |materials| && materials[y] != null ==>
                  materials[y].PreparedFrom(shadings[y], old(materials[y].Config()), old(materials[y].State()))
    {
      var m := materials[x];
      if m != null {
        m.Prepare(shadings[x], old(m.Config()), old(m.State()));
      }
      x := x + 1;
    }
  }

  /** The second loop of plMatMakeOptPal: the requested colours of all
      materials, one after the other, and their number. */
  method Gather(materials: seq<Materials.Material?>) returns (allColors: seq<Rgb>, numColors: int)
    requires forall x :: 0 <= x < |materials| && materials[x] != null ==>
               materials[x].Done()
    ensures allColors == AllColors(materials) && numColors == |allColors|
  {
    numColors := 0;
    allColors := [];
    var x := 0;
    while x < |materials|
      invariant 0 <= x <= |materials|
      invariant allColors == AllColors(materials[..x]) && numColors == |allColors|
    {
      var m := materials[x];
      assert materials[..x + 1][..x] == materials[..x];
      if m != null {
        allColors := allColors + m.requestedColors.value;
        numColors := numColors + m.colorsUsed;
      }
      x := x + 1;
    }
    assert materials[..x] == materials;
  }

  /** The two phases and the final write of plMatMakeOptPal for more
      colours than slots. */
  method ReduceInto(p: array<Rgb>, pstart: int, len: int, allColors: seq<Rgb>)
    requires 1 <= len < |allColors| && 0 <= pstart && pstart + len <= p.Length
    modifies p
    ensures var out := OptColors(allColors, len);
            p[..] == old(p[..])[..pstart] + out + old(p[..])[pstart + |out|..]
  {
    var rgb := new Rgb[|allColors|](i requires 0 <= i < |allColors| => allColors[i]);
    assert rgb[..] == allColors;
    var next, chain, count := BuildChain(rgb);
    ghost var cs0 := ColorsOf(allColors, chain);
    while count > len
      invariant Linked(next[..], chain, rgb.Length) && count == |chain|
      invariant Reduce(cs0, len) == Reduce(ColorsOf(rgb[..], chain), len)
      modifies rgb, next
      decreases count
    {
      chain := MergeStep(rgb, next, chain);
      count := count - 1;
    }
    assert OptColors(allColors, len) == ColorsOf(rgb[..], chain);
    WriteChain(p, pstart, rgb, next, chain);
  }

  /** What plMatMakeOptPal does with the gathered colours: nothing when
      there are none, a plain copy when they fit in the `len` slots, the
      reduction otherwise. */
  method WriteOptColors(p: array<Rgb>, pstart: int, len: int, allColors: seq<Rgb>, numColors: int)
    requires 1 <= len && 0 <= pstart && pstart + len <= p.Length && numColors == |allColors|
    modifies p
    ensures var out := OptColors(allColors, len);
            p[..] == old(p[..])[..pstart] + out + old(p[..])[pstart + |out|..]
  {
    if numColors == 0 {
      assert p[..] == p[..][..pstart] + [] + p[..][pstart..];
      return;
    }
    if numColors <= len {
      WriteColors(p, pstart, allColors);
      return;
    }
    ReduceInto(p, pstart, len, allColors);
  }

  /** plMatMakeOptPal on palette entries p[pstart..pend]. */
  method MakeOptPal(p: array<Rgb>, pstart: int, pend: int, materials: seq<Materials.Material?>, shadings: seq<Materials.Shading>)
    requires 0 <= pstart <= pend < p.Length
    requires |shadings| == |materials|
    requires forall x :: 0 <= x < |materials| && materials[x] != null ==>
               materials[x].Pending(shadings[x])
    requires forall x, y :: 0 <= x < |materials| && 0 <= y < |materials| && materials[x] != null && materials[x] == materials[y] ==>
               shadings[x] == shadings[y]
    modifies p, materials
    ensures forall x :: 0 <= x < |materials| && materials[x] != null ==>
              materials[x].Done()
    ensures forall x :: 0 <= x < |materials| && materials[x] != null ==>
              materials[x].PreparedFrom(shadings[x], old(materials[x].Config()), old(materials[x].State()))
    ensures var out := OptColors(AllColors(materials), pend + 1 - pstart);
            p[..] == old(p[..])[..pstart] + out + old(p[..])[pstart + |out|..]
  {
    ghost var p0 := p[..];
    InitMaterials(materials, shadings);
    assert p[..] == p0;
    WriteGathered(p, pstart, pend, materials);
  }

  /** The second half of plMatMakeOptPal: the materials' requested colours,
      gathered, go into p[pstart..pend] once the first loop has initialised
      every material. */
  method WriteGathered(p: array<Rgb>, pstart: int, pend: int, materials: seq<Materials.Material?>)
    requires 0 <= pstart <= pend < p.Length
    requires forall x :: 0 <= x < |materials| && materials[x] != null ==>
               materials[x].Done()
    modifies p
    ensures var out := OptColors(AllColors(materials), pend + 1 - pstart);
            p[..] == old(p[..])[..pstart] + out + old(p[..])[pstart + |out|..]
  {
    var allColors, numColors := Gather(materials);
    WriteOptColors(p, pstart, pend + 1 - pstart, allColors, numColors);
  }
}

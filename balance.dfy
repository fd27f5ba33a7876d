/** Union by rank keeps the forest balanced: the class under a root of
    rank `k` has at least `2^k` elements, so no rank exceeds `log2 n`.
    This is what lets the rank table use one byte per element. */
module Balance {
  import opened Forest

  ghost function Pow2(k: nat): (r: nat)
    ensures r >= 1
  {
    if k == 0 then 1 else 2 * Pow2(k - 1)
  }

  lemma {:induction false} Pow2Monotone(j: nat, k: nat)
    requires j <= k
    ensures Pow2(j) <= Pow2(k)
    decreases k
  {
    if j < k {
      Pow2Monotone(j, k - 1);
    }
  }

  /** The elements whose representative is `r`. */
  ghost function Members(p: seq<nat>, rank: seq<nat>, r: nat): set<nat>
    requires WellFormed(p, rank)
  {
    set i | 0 <= i < |p| && Root(p, rank, i) == r
  }

  /** Every root of rank `k` represents at least `2^k` elements. */
  ghost predicate RankBounded(p: seq<nat>, rank: seq<nat>)
  {
    && WellFormed(p, rank)
    && forall r :: 0 <= r < |p| && p[r] == r ==> Pow2(rank[r]) <= |Members(p, rank, r)|
  }

  lemma {:induction false} SubsetOfRange(s: set<nat>, n: nat)
    requires forall i :: i in s ==> i < n
    ensures |s| <= n
  {
    if n > 0 {
      SubsetOfRange(s - {n - 1}, n - 1);
    } else {
      assert s == {};
    }
  }

  /** In a balanced forest `2^rank[i] <= n` for every element, root or
      not: ranks are logarithmic in the number of elements. */
  lemma RankLogarithmic(p: seq<nat>, rank: seq<nat>, i: nat)
    requires RankBounded(p, rank) && i < |p|
    ensures Pow2(rank[i]) <= |p|
  {
    var r := Root(p, rank, i);
    SubsetOfRange(Members(p, rank, r), |p|);
    Pow2Monotone(rank[i], rank[r]);
  }

  /** With fewer than `2^64` elements (any table a 64-bit machine can
      index) every rank of a balanced forest is below 64.  Since every
      union keeps the forest balanced, a rank raised by a union is below
      64 too, so one byte per rank never overflows. */
  lemma RanksFitInByte(p: seq<nat>, rank: seq<nat>)
    requires RankBounded(p, rank) && |p| < Pow2(64)
    ensures forall i :: 0 <= i < |p| ==> rank[i] < 64
  {
    forall i | 0 <= i < |p|
      ensures rank[i] < 64
    {
      RankLogarithmic(p, rank, i);
      if rank[i] >= 64 {
        Pow2Monotone(64, rank[i]);
      }
    }
  }

  /** `n` singletons of rank 0 are balanced. */
  lemma SingletonsBalanced(p: seq<nat>, rank: seq<nat>)
    requires |rank| == |p|
    requires forall i :: 0 <= i < |p| ==> p[i] == i && rank[i] == 0
    ensures RankBounded(p, rank)
  {
    forall r | 0 <= r < |p| && p[r] == r
      ensures Pow2(rank[r]) <= |Members(p, rank, r)|
    {
      assert r in Members(p, rank, r);
    }
  }

  /** A change of parent table that keeps every representative and
      every rank keeps the forest balanced. */
  lemma SameClassesBalanced(p: seq<nat>, p2: seq<nat>, rank: seq<nat>)
    requires RankBounded(p, rank) && SameClasses(p, rank, p2, rank)
    ensures RankBounded(p2, rank)
  {
    forall r | 0 <= r < |p2| && p2[r] == r
      ensures Pow2(rank[r]) <= |Members(p2, rank, r)|
    {
      assert Root(p2, rank, r) == r;
      assert Members(p2, rank, r) == Members(p, rank, r);
    }
  }

  /** After a merge of the classes rooted at `a` and `b` under `w`, the
      class of `w` is the union of the two, and any other root keeps its
      class. */
  lemma MergedMembers(q: seq<nat>, rank: seq<nat>, p2: seq<nat>, rank2: seq<nat>, a: nat, b: nat, w: nat, r: nat)
    requires MergedClasses(q, rank, p2, rank2, a, b, w)
    requires a < |q| && b < |q| && q[a] == a && q[b] == b && (w == a || w == b)
    requires r < |p2| && p2[r] == r
    ensures r == w ==> Members(p2, rank2, r) == Members(q, rank, a) + Members(q, rank, b)
    ensures r != w ==> r != a && r != b && q[r] == r && Members(p2, rank2, r) == Members(q, rank, r)
  {
    assert Root(p2, rank2, r) == r;
    if r != w {
      assert Root(q, rank, r) == r;
    }
  }

  /** Merging the classes of roots `a` and `b` under the one of higher
      rank `w` keeps the forest balanced, whether the rank of `w` stays or,
      when the two ranks were equal, grows by one. */
  lemma MergeBalanced(q: seq<nat>, rank: seq<nat>, p2: seq<nat>, rank2: seq<nat>, a: nat, b: nat, w: nat)
    requires RankBounded(q, rank) && MergedClasses(q, rank, p2, rank2, a, b, w)
    requires a < |q| && b < |q| && a != b && q[a] == a && q[b] == b
    requires w == a || w == b
    requires rank[a] <= rank[w] && rank[b] <= rank[w]
    requires forall i :: 0 <= i < |rank| && i != w ==> rank2[i] == rank[i]
    requires rank2[w] == rank[w] || (rank2[w] == rank[w] + 1 && rank[a] == rank[b])
    ensures RankBounded(p2, rank2)
  {
    forall r | 0 <= r < |p2| && p2[r] == r
      ensures Pow2(rank2[r]) <= |Members(p2, rank2, r)|
    {
      MergedMembers(q, rank, p2, rank2, a, b, w, r);
      if r == w {
        WinnerBalanced(q, rank, a, b, w, rank2[w]);
      }
    }
  }

  lemma WinnerBalanced(q: seq<nat>, rank: seq<nat>, a: nat, b: nat, w: nat, k: nat)
    requires RankBounded(q, rank)
    requires a < |q| && b < |q| && a != b && q[a] == a && q[b] == b
    requires w == a || w == b
    requires rank[a] <= rank[w] && rank[b] <= rank[w]
    requires k == rank[w] || (k == rank[w] + 1 && rank[a] == rank[b])
    ensures Pow2(k) <= |Members(q, rank, a) + Members(q, rank, b)|
  {
    var ma, mb := Members(q, rank, a), Members(q, rank, b);
    assert Root(q, rank, a) == a && Root(q, rank, b) == b;
    assert ma * mb == {};
    assert |ma + mb| == |ma| + |mb|;
  }

  /** Every union keeps the forest balanced. */
  lemma UniteBalanced(p: seq<nat>, rank: seq<nat>, x: nat, y: nat)
    requires RankBounded(p, rank)
    requires x != y ==> x < |p| && y < |p|
    ensures var u := Unite(p, rank, x, y); RankBounded(u.parent, u.rank)
  {
    var u := Unite(p, rank, x, y);
    UniteSound(p, rank, x, y);
    if !u.merged {
      SameClassesBalanced(p, u.parent, rank);
    } else {
      var xr, yr := Root(p, rank, x), Root(p, rank, y);
      MergeBalanced(p, rank, u.parent, u.rank, xr, yr, Winner(rank, xr, yr));
    }
  }
}

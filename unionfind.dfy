/** `UnionFind`: a disjoint-set structure over the elements `0 .. n - 1`,
    kept as a parent table and a rank table that are updated in place.
    Every operation is specified against the pure forest in module Forest. */
module UnionFind {
  import opened Forest
  import opened Balance

  class UnionFind {
    /** `parent[i]` is the parent of `i`; a representative is its own parent. */
    const parent: array<nat>
    /** `rank[i]` bounds the height of the tree under `i`; meaningful for roots. */
    const rank: array<nat>

    ghost predicate Valid()
      reads parent, rank
    {
      parent != rank && RankBounded(parent[..], rank[..])
    }

    /** The current representative of `x`. */
    ghost function Rep(x: nat): nat
      reads parent, rank
      requires Valid() && x < parent.Length
    {
      Root(parent[..], rank[..], x)
    }

    /** `n` singleton classes: every element is its own representative,
        with rank 0. */
    constructor (n: nat)
      ensures Valid() && fresh(parent) && fresh(rank)
      ensures parent.Length == rank.Length == n
      ensures forall i :: 0 <= i < n ==> parent[i] == i && rank[i] == 0
      ensures |RootSet(parent[..])| == n
    {
      var r := new nat[n];
      for i := 0 to n
        invariant forall k :: 0 <= k < i ==> r[k] == 0
      {
        r[i] := 0;
      }
      var p := new nat[n];
      for i := 0 to n
        invariant forall k :: 0 <= k < i ==> p[k] == k
        invariant forall k :: 0 <= k < n ==> r[k] == 0
      {
        p[i] := i;
      }
      parent, rank := p, r;
      new;
      AllSingletons(parent[..]);
      SingletonsBalanced(parent[..], rank[..]);
    }

    /** The representative of `x`, found by walking parent links without
        changing anything. */
    method Find(x: nat) returns (r: nat)
      requires Valid() && x < parent.Length
      ensures r < parent.Length && parent[r] == r
      ensures r == Rep(x)
      ensures r in Path(parent[..], rank[..], x)
    {
      r := x;
      while true
        invariant r < parent.Length
        invariant Rep(r) == Rep(x)
        invariant r in Path(parent[..], rank[..], x)
        decreases MaxRank(rank[..]) - rank[r]
      {
        var rparent := parent[r];
        if rparent == r {
          break;
        }
        PathStep(parent[..], rank[..], x, r);
        r := rparent;
      }
    }

    /** The representative of `x`; every element on the path from `x` is
        re-pointed straight at it (full path compression). */
    method FindMut(x: nat) returns (r: nat)
      requires Valid() && x < parent.Length
      modifies parent
      ensures Valid()
      ensures r == old(Rep(x))
      ensures parent[..] == Compress(old(parent[..]), rank[..], x)
      ensures parent[x] == r
      ensures forall i :: i in old(Path(parent[..], rank[..], x)) ==> parent[i] == r
      ensures forall i :: 0 <= i < parent.Length && i !in old(Path(parent[..], rank[..], x)) ==>
                parent[i] == old(parent[i])
      ensures SameClasses(old(parent[..]), rank[..], parent[..], rank[..])
      ensures RootSet(parent[..]) == old(RootSet(parent[..]))
    {
      CompressEffect(parent[..], rank[..], x);
      r := FindMutRecursive(x);
    }

    method FindMutRecursive(x: nat) returns (r: nat)
      requires Valid() && x < parent.Length
      modifies parent
      ensures Valid()
      ensures r == old(Rep(x))
      ensures parent[..] == Compress(old(parent[..]), rank[..], x)
      ensures SameClasses(old(parent[..]), rank[..], parent[..], rank[..])
      ensures RootSet(parent[..]) == old(RootSet(parent[..]))
      decreases MaxRank(rank[..]) - rank[x]
    {
      ghost var p0 := parent[..];
      CompressSound(p0, rank[..], x);
      var xparent := parent[x];
      if xparent != x {
        r := FindMutRecursive(xparent);
        parent[x] := r;
        CompressStep(p0, rank[..], x);
        assert parent[..] == Compress(p0, rank[..], xparent)[x := r];
        SameClassesBalanced(p0, parent[..], rank[..]);
      } else {
        r := xparent;
        assert parent[..] == Compress(p0, rank[..], x);
      }
    }

    /** Merges the classes of `x` and `y`; answers whether they were
        different.  `x == y` is answered without looking at the tables,
        so it needs no bounds.  The root of lower rank goes under the
        other; on a tie `y`'s root goes under `x`'s, whose rank grows by 1. */
    method Union(x: nat, y: nat) returns (merged: bool)
      requires Valid()
      requires x != y ==> x < parent.Length && y < parent.Length
      modifies parent, rank
      ensures Valid()
      ensures var u := Unite(old(parent[..]), old(rank[..]), x, y);
                merged == u.merged && parent[..] == u.parent && rank[..] == u.rank
      ensures merged <==> x != y && old(Rep(x)) != old(Rep(y))
      ensures !merged ==> rank[..] == old(rank[..])
      ensures x != y ==> Rep(x) == Rep(y)
      ensures !merged ==> SameClasses(old(parent[..]), old(rank[..]), parent[..], rank[..])
      ensures merged ==>
                var xr, yr := old(Rep(x)), old(Rep(y));
                MergedClasses(old(parent[..]), old(rank[..]), parent[..], rank[..],
                              xr, yr, Winner(old(rank[..]), xr, yr))
      ensures |RootSet(parent[..])| == old(|RootSet(parent[..])|) - (if merged then 1 else 0)
    {
      ghost var p0, rank0 := parent[..], rank[..];
      if x == y {
        return false;
      }
      UniteSound(p0, rank0, x, y);
      UniteBalanced(p0, rank0, x, y);
      var xrep := FindMut(x);
      var yrep := FindMut(y);
      ghost var q := parent[..];
      assert xrep == Root(p0, rank0, x) && yrep == Root(p0, rank0, y);
      assert q == CompressBoth(p0, rank0, x, y);

      if xrep == yrep {
        return false;
      }

      LinkRoots(xrep, yrep);
      merged := true;
    }

    /** Hangs one of the two distinct roots `xr`, `yr` under the other by
        the rank rule of `Link`. */
    method LinkRoots(xr: nat, yr: nat)
      requires parent != rank && parent.Length == rank.Length
      requires xr < parent.Length && yr < parent.Length
      modifies parent, rank
      ensures var l := Link(old(parent[..]), old(rank[..]), xr, yr);
                parent[..] == l.parent && rank[..] == l.rank
    {
      var xrank := rank[xr];
      var yrank := rank[yr];
      if xrank < yrank {
        parent[xr] := yr;
      } else if xrank > yrank {
        parent[yr] := xr;
      } else {
        parent[yr] := xr;
        rank[xr] := xrank + 1;
      }
    }
  }

  /** One step up the path from `x`: the parent of a non-root on the path
      is on the path too. */
  lemma {:induction false} PathStep(p: seq<nat>, rank: seq<nat>, x: nat, i: nat)
    requires WellFormed(p, rank) && x < |p|
    requires i in Path(p, rank, x) && p[i] != i
    ensures p[i] in Path(p, rank, x)
    decreases MaxRank(rank) - rank[x]
  {
    if i != x {
      PathStep(p, rank, p[x], i);
    }
  }
}

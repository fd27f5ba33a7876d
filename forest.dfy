/** The parent-pointer forest behind a union-find structure, as pure values.
    `p` is the parent table and `rank` the rank table; element `i` is a
    representative (a root) exactly when `p[i] == i`.  The class in
    unionfind.dfy is specified against the functions of this module. */
module Forest {

  /** The invariant of the two tables: same length, every parent is an
      element, and rank strictly increases from a non-root to its parent.
      The last conjunct is what makes every parent chain finite. */
  ghost predicate WellFormed(p: seq<nat>, rank: seq<nat>)
  {
    && |p| == |rank|
    && forall i :: 0 <= i < |p| ==>
         && p[i] < |p|
         && (p[i] != i ==> rank[i] < rank[p[i]])
  }

  /** An upper bound on every rank; `MaxRank(rank) - rank[x]` is the
      termination measure of every walk towards a root. */
  ghost function MaxRank(rank: seq<nat>): (m: nat)
    ensures forall i :: 0 <= i < |rank| ==> rank[i] <= m
    ensures |rank| > 0 ==> m in rank
  {
    if |rank| == 0 then 0
    else
      var m := MaxRank(rank[1..]);
      if rank[0] < m then m else rank[0]
  }

  /** The representative of `x`: the first root reached by following
      parent links from `x`. */
  ghost function Root(p: seq<nat>, rank: seq<nat>, x: nat): (r: nat)
    requires WellFormed(p, rank) && x < |p|
    ensures r < |p| && p[r] == r
    ensures r != x ==> p[x] != x && rank[x] < rank[r]
    decreases MaxRank(rank) - rank[x]
  {
    if p[x] == x then x else Root(p, rank, p[x])
  }

  /** The chain of elements visited from `x` up to and including its root. */
  ghost function Path(p: seq<nat>, rank: seq<nat>, x: nat): (path: seq<nat>)
    requires WellFormed(p, rank) && x < |p|
    ensures |path| >= 1 && path[0] == x && path[|path| - 1] == Root(p, rank, x)
    ensures forall k :: 0 <= k < |path| ==> path[k] < |p|
    decreases MaxRank(rank) - rank[x]
  {
    if p[x] == x then [x] else [x] + Path(p, rank, p[x])
  }

  /** The parent table after full path compression from `x`: every element
      on the path from `x` points straight at the root, all others keep
      their parent. */
  ghost function Compress(p: seq<nat>, rank: seq<nat>, x: nat): seq<nat>
    requires WellFormed(p, rank) && x < |p|
  {
    var path, r := Path(p, rank, x), Root(p, rank, x);
    seq(|p|, i requires 0 <= i < |p| => if i in path then r else p[i])
  }

  /** The parent table after the two lookups of a union: compression from
      `x`, then compression from `y` in the compressed table. */
  ghost function CompressBoth(p: seq<nat>, rank: seq<nat>, x: nat, y: nat): seq<nat>
    requires WellFormed(p, rank) && x < |p| && y < |p|
  {
    CompressWellFormed(p, rank, x);
    Compress(Compress(p, rank, x), rank, y)
  }

  /** The representatives, one per class. */
  ghost function RootSet(p: seq<nat>): set<nat>
  {
    set i | 0 <= i < |p| && p[i] == i
  }

  /** Both forests are well formed over the same elements, and every
      element has the same representative in each. */
  ghost predicate SameClasses(p: seq<nat>, rank: seq<nat>, p2: seq<nat>, rank2: seq<nat>)
  {
    && WellFormed(p, rank) && WellFormed(p2, rank2) && |p2| == |p|
    && forall i :: 0 <= i < |p| ==> Root(p2, rank2, i) == Root(p, rank, i)
  }

  /** Both forests are well formed over the same elements; the classes
      rooted at `a` and `b` in the first are one class rooted at `w` in the
      second, and every other class keeps its representative. */
  ghost predicate MergedClasses(p: seq<nat>, rank: seq<nat>, p2: seq<nat>, rank2: seq<nat>, a: nat, b: nat, w: nat)
  {
    && WellFormed(p, rank) && WellFormed(p2, rank2) && |p2| == |p|
    && forall i :: 0 <= i < |p| ==>
         Root(p2, rank2, i) == if Root(p, rank, i) == a || Root(p, rank, i) == b then w else Root(p, rank, i)
  }

  /** The path follows parent links: each element but the last is a
      non-root whose parent is the next element. */
  lemma {:induction false} PathFollowsParents(p: seq<nat>, rank: seq<nat>, x: nat)
    requires WellFormed(p, rank) && x < |p|
    ensures forall k :: 0 < k < |Path(p, rank, x)| ==>
              Path(p, rank, x)[k - 1] != Path(p, rank, x)[k] == p[Path(p, rank, x)[k - 1]]
    decreases MaxRank(rank) - rank[x]
  {
    if p[x] != x {
      var path, tail := Path(p, rank, x), Path(p, rank, p[x]);
      PathFollowsParents(p, rank, p[x]);
      assert path == [x] + tail;
      forall k | 0 < k < |path|
        ensures path[k - 1] != path[k] == p[path[k - 1]]
      {
        if k > 1 {
          assert path[k - 1] == tail[k - 2] && path[k] == tail[k - 1];
        }
      }
    }
  }

  /** Every element on the path from `x` has the same root as `x`. */
  lemma {:induction false} RootAlongPath(p: seq<nat>, rank: seq<nat>, x: nat, i: nat)
    requires WellFormed(p, rank) && x < |p|
    requires i in Path(p, rank, x)
    ensures i < |p| && Root(p, rank, i) == Root(p, rank, x)
    decreases MaxRank(rank) - rank[x]
  {
    if i != x {
      RootAlongPath(p, rank, p[x], i);
    }
  }

  /** After compression from `x`, `x` and every element on its old path
      point directly at the root, and every other element keeps its parent. */
  lemma CompressEffect(p: seq<nat>, rank: seq<nat>, x: nat)
    requires WellFormed(p, rank) && x < |p|
    ensures var c, r := Compress(p, rank, x), Root(p, rank, x);
      && |c| == |p| && c[x] == r && c[r] == r
      && (forall i :: i in Path(p, rank, x) ==> c[i] == r)
      && (forall i :: 0 <= i < |p| && i !in Path(p, rank, x) ==> c[i] == p[i])
  {
  }

  /** Compressing the same path twice changes nothing the second time. */
  lemma CompressIdempotent(p: seq<nat>, rank: seq<nat>, x: nat)
    requires WellFormed(p, rank) && x < |p|
    ensures WellFormed(Compress(p, rank, x), rank)
    ensures Compress(Compress(p, rank, x), rank, x) == Compress(p, rank, x)
  {
    CompressSound(p, rank, x);
    CompressEffect(p, rank, x);
    var c, r := Compress(p, rank, x), Root(p, rank, x);
    assert Root(c, rank, x) == r;
    assert Path(c, rank, x) == if x == r then [x] else [x, r];
  }

  /** Compression from a non-root `x` is compression from its parent
      followed by re-pointing `x` itself at the root. */
  lemma CompressStep(p: seq<nat>, rank: seq<nat>, x: nat)
    requires WellFormed(p, rank) && x < |p| && p[x] != x
    ensures Compress(p, rank, x) == Compress(p, rank, p[x])[x := Root(p, rank, x)]
  {
    var c, c' := Compress(p, rank, x), Compress(p, rank, p[x])[x := Root(p, rank, x)];
    assert Path(p, rank, x) == [x] + Path(p, rank, p[x]);
    forall i | 0 <= i < |p|
      ensures c[i] == c'[i]
    {
    }
  }

  /** Path compression keeps the tables well formed. */
  lemma CompressWellFormed(p: seq<nat>, rank: seq<nat>, x: nat)
    requires WellFormed(p, rank) && x < |p|
    ensures WellFormed(Compress(p, rank, x), rank)
  {
    var c, path, r := Compress(p, rank, x), Path(p, rank, x), Root(p, rank, x);
    forall i | 0 <= i < |c|
      ensures c[i] < |c| && (c[i] != i ==> rank[i] < rank[c[i]])
    {
      if i in path {
        RootAlongPath(p, rank, x, i);
      }
    }
  }

  lemma {:induction false} CompressKeepsRootOf(p: seq<nat>, rank: seq<nat>, x: nat, j: nat)
    requires WellFormed(p, rank) && x < |p| && j < |p|
    requires WellFormed(Compress(p, rank, x), rank)
    ensures Root(Compress(p, rank, x), rank, j) == Root(p, rank, j)
    decreases MaxRank(rank) - rank[j]
  {
    var c, path, r := Compress(p, rank, x), Path(p, rank, x), Root(p, rank, x);
    if j in path {
      RootAlongPath(p, rank, x, j);
      assert c[r] == r;
    } else if p[j] != j {
      CompressKeepsRootOf(p, rank, x, p[j]);
    }
  }

  /** Path compression changes no element's representative and no root. */
  lemma CompressSound(p: seq<nat>, rank: seq<nat>, x: nat)
    requires WellFormed(p, rank) && x < |p|
    ensures SameClasses(p, rank, Compress(p, rank, x), rank)
    ensures RootSet(Compress(p, rank, x)) == RootSet(p)
  {
    CompressWellFormed(p, rank, x);
    forall j | 0 <= j < |p|
      ensures Root(Compress(p, rank, x), rank, j) == Root(p, rank, j)
    {
      CompressKeepsRootOf(p, rank, x, j);
    }
    var c, path, r := Compress(p, rank, x), Path(p, rank, x), Root(p, rank, x);
    forall i | 0 <= i < |p|
      ensures c[i] == i <==> p[i] == i
    {
      if i in path {
        RootAlongPath(p, rank, x, i);
      }
    }
  }

  /** The conditions under which root `a` may be attached under root `b`:
      `rank2` is `rank`, possibly with `rank[b]` raised, and afterwards `a`
      ranks strictly below `b`. */
  ghost predicate CanLink(p: seq<nat>, rank: seq<nat>, rank2: seq<nat>, a: nat, b: nat)
  {
    && WellFormed(p, rank)
    && a < |p| && b < |p| && a != b
    && p[a] == a && p[b] == b
    && |rank2| == |rank|
    && (forall i :: 0 <= i < |rank| && i != b ==> rank2[i] == rank[i])
    && rank[b] <= rank2[b]
    && rank2[a] < rank2[b]
  }

  lemma LinkWellFormed(p: seq<nat>, rank: seq<nat>, rank2: seq<nat>, a: nat, b: nat)
    requires CanLink(p, rank, rank2, a, b)
    ensures WellFormed(p[a := b], rank2)
  {
    var q := p[a := b];
    forall i | 0 <= i < |q|
      ensures q[i] < |q| && (q[i] != i ==> rank2[i] < rank2[q[i]])
    {
      if i != a && q[i] != i {
        assert i != b;
      }
    }
  }

  lemma {:induction false} LinkRootOf(p: seq<nat>, rank: seq<nat>, rank2: seq<nat>, a: nat, b: nat, j: nat)
    requires CanLink(p, rank, rank2, a, b) && j < |p|
    requires WellFormed(p[a := b], rank2)
    ensures Root(p[a := b], rank2, j) == if Root(p, rank, j) == a then b else Root(p, rank, j)
    decreases MaxRank(rank) - rank[j]
  {
    var q := p[a := b];
    if j == a {
      assert q[b] == b;
    } else if p[j] != j {
      LinkRootOf(p, rank, rank2, a, b, p[j]);
    }
  }

  /** Attaching root `a` under root `b` merges exactly the class of `a`
      into the class of `b`, and `a` stops being a root. */
  lemma LinkSound(p: seq<nat>, rank: seq<nat>, rank2: seq<nat>, a: nat, b: nat)
    requires CanLink(p, rank, rank2, a, b)
    ensures MergedClasses(p, rank, p[a := b], rank2, a, b, b)
    ensures RootSet(p[a := b]) == RootSet(p) - {a}
    ensures |RootSet(p[a := b])| == |RootSet(p)| - 1
  {
    LinkWellFormed(p, rank, rank2, a, b);
    forall j | 0 <= j < |p|
      ensures Root(p[a := b], rank2, j) == if Root(p, rank, j) == a then b else Root(p, rank, j)
    {
      LinkRootOf(p, rank, rank2, a, b, j);
    }
    assert RootSet(p[a := b]) == RootSet(p) - {a};
  }

  /** The two compressions of a union together keep the tables well
      formed and change no representative and no root. */
  lemma CompressBothSound(p: seq<nat>, rank: seq<nat>, x: nat, y: nat)
    requires WellFormed(p, rank) && x < |p| && y < |p|
    ensures SameClasses(p, rank, CompressBoth(p, rank, x, y), rank)
    ensures RootSet(CompressBoth(p, rank, x, y)) == RootSet(p)
  {
    CompressSound(p, rank, x);
    CompressSound(Compress(p, rank, x), rank, y);
  }

  /** The root that survives when the classes rooted at `xr` and `yr`
      are merged by rank: the higher rank wins, a tie goes to `xr`. */
  ghost function Winner(rank: seq<nat>, xr: nat, yr: nat): nat
    requires xr < |rank| && yr < |rank|
  {
    if rank[xr] < rank[yr] then yr else xr
  }

  /** The outcome of a union: whether two classes were merged, and the
      parent and rank tables afterwards. */
  datatype Outcome = Outcome(merged: bool, parent: seq<nat>, rank: seq<nat>)

  /** Linking two distinct roots by rank: the root of lower rank goes
      under the other, and on a tie `yr` goes under `xr`, whose rank grows
      by one. */
  ghost function Link(q: seq<nat>, rank: seq<nat>, xr: nat, yr: nat): Outcome
    requires xr < |q| && yr < |q| && |rank| == |q|
  {
    if rank[xr] < rank[yr] then Outcome(true, q[xr := yr], rank)
    else if rank[xr] > rank[yr] then Outcome(true, q[yr := xr], rank)
    else Outcome(true, q[yr := xr], rank[xr := rank[xr] + 1])
  }

  /** A union of `x` and `y`.  Equal arguments change nothing and are not
      looked up.  Otherwise both paths are compressed, and if the roots then
      differ they are linked by rank. */
  ghost function Unite(p: seq<nat>, rank: seq<nat>, x: nat, y: nat): (u: Outcome)
    requires WellFormed(p, rank)
    requires x != y ==> x < |p| && y < |p|
    ensures WellFormed(u.parent, u.rank) && |u.parent| == |p|
  {
    if x == y then Outcome(false, p, rank)
    else
      var xr, yr := Root(p, rank, x), Root(p, rank, y);
      var q := CompressBoth(p, rank, x, y);
      CompressBothSound(p, rank, x, y);
      if xr == yr then Outcome(false, q, rank)
      else
        assert Root(q, rank, xr) == xr && Root(q, rank, yr) == yr;
        LinkSoundByRank(q, rank, xr, yr);
        Link(q, rank, xr, yr)
  }

  /** Linking two distinct roots merges their two classes under the
      winner of the rank comparison, keeps every other class, and leaves
      one class fewer. */
  lemma LinkSoundByRank(q: seq<nat>, rank: seq<nat>, xr: nat, yr: nat)
    requires WellFormed(q, rank) && xr < |q| && yr < |q| && xr != yr
    requires q[xr] == xr && q[yr] == yr
    ensures var l := Link(q, rank, xr, yr);
      && MergedClasses(q, rank, l.parent, l.rank, xr, yr, Winner(rank, xr, yr))
      && |RootSet(l.parent)| == |RootSet(q)| - 1
  {
    var l := Link(q, rank, xr, yr);
    if rank[xr] < rank[yr] {
      LinkSound(q, rank, l.rank, xr, yr);
    } else {
      LinkSound(q, rank, l.rank, yr, xr);
    }
  }

  /** `i` and `j` are elements of the same class. */
  ghost predicate SameClass(p: seq<nat>, rank: seq<nat>, i: nat, j: nat)
  {
    WellFormed(p, rank) && i < |p| && j < |p| && Root(p, rank, i) == Root(p, rank, j)
  }

  /** What a union does to the classes: it merges exactly when `x` and
      `y` had different representatives, the two classes then become one
      under the winner of the rank comparison and all other classes keep
      their representative; otherwise every representative stays.  The
      number of classes drops by one exactly on a merge. */
  lemma UniteSound(p: seq<nat>, rank: seq<nat>, x: nat, y: nat)
    requires WellFormed(p, rank)
    requires x != y ==> x < |p| && y < |p|
    ensures var u := Unite(p, rank, x, y);
      && (u.merged <==> x != y && Root(p, rank, x) != Root(p, rank, y))
      && (!u.merged ==> SameClasses(p, rank, u.parent, u.rank))
      && (u.merged ==>
            var xr, yr := Root(p, rank, x), Root(p, rank, y);
            && MergedClasses(p, rank, u.parent, u.rank, xr, yr, Winner(rank, xr, yr))
            && SameClass(u.parent, u.rank, x, y))
      && |RootSet(u.parent)| == |RootSet(p)| - (if u.merged then 1 else 0)
  {
    if x != y {
      CompressBothSound(p, rank, x, y);
      var xr, yr := Root(p, rank, x), Root(p, rank, y);
      var q := CompressBoth(p, rank, x, y);
      assert Root(q, rank, x) == xr && Root(q, rank, y) == yr;
      if xr != yr {
        LinkSoundByRank(q, rank, xr, yr);
      }
    }
  }

  /** Seen as an equivalence, a merge of the classes rooted at `a` and `b`
      relates two elements exactly when they were related before or both
      lay in one of the two merged classes. */
  lemma MergedPartition(p: seq<nat>, rank: seq<nat>, p2: seq<nat>, rank2: seq<nat>, a: nat, b: nat, w: nat)
    requires MergedClasses(p, rank, p2, rank2, a, b, w)
    requires w == a || w == b
    ensures forall i, j :: 0 <= i < |p| && 0 <= j < |p| ==>
              (SameClass(p2, rank2, i, j) <==>
                 || SameClass(p, rank, i, j)
                 || ((Root(p, rank, i) == a || Root(p, rank, i) == b) &&
                     (Root(p, rank, j) == a || Root(p, rank, j) == b)))
  {
  }

  /** Union is symmetric in its effect: `x, y` and `y, x` merge in the
      same cases and leave the same classes, though the surviving
      representative may differ. */
  lemma UniteSymmetric(p: seq<nat>, rank: seq<nat>, x: nat, y: nat)
    requires WellFormed(p, rank) && x < |p| && y < |p|
    ensures var u, v := Unite(p, rank, x, y), Unite(p, rank, y, x);
      && u.merged == v.merged
      && forall i, j :: SameClass(u.parent, u.rank, i, j) <==> SameClass(v.parent, v.rank, i, j)
  {
    var u, v := Unite(p, rank, x, y), Unite(p, rank, y, x);
    UniteSound(p, rank, x, y);
    UniteSound(p, rank, y, x);
    var xr, yr := Root(p, rank, x), Root(p, rank, y);
    if u.merged {
      MergedPartition(p, rank, u.parent, u.rank, xr, yr, Winner(rank, xr, yr));
      MergedPartition(p, rank, v.parent, v.rank, yr, xr, Winner(rank, yr, xr));
    }
  }

  /** Classes only ever grow: elements related before a union stay
      related after it. */
  lemma UniteKeepsClasses(p: seq<nat>, rank: seq<nat>, x: nat, y: nat)
    requires WellFormed(p, rank)
    requires x != y ==> x < |p| && y < |p|
    ensures var u := Unite(p, rank, x, y);
      forall i, j :: SameClass(p, rank, i, j) ==> SameClass(u.parent, u.rank, i, j)
  {
    UniteSound(p, rank, x, y);
  }

  /** The state after a run of unions, and the answer of each union. */
  datatype Run = Run(parent: seq<nat>, rank: seq<nat>, answers: seq<bool>)

  /** How many of the answers are true. */
  function Merges(answers: seq<bool>): (m: nat)
    ensures m <= |answers|
  {
    if |answers| == 0 then 0 else Merges(answers[1..]) + if answers[0] then 1 else 0
  }

  /** Every pair of a run names two elements, or the same value twice. */
  ghost predicate PairsInRange(pairs: seq<(nat, nat)>, n: nat)
  {
    forall k :: 0 <= k < |pairs| ==> pairs[k].0 != pairs[k].1 ==> pairs[k].0 < n && pairs[k].1 < n
  }

  /** The unions of `pairs`, performed in order. */
  ghost function UniteAll(p: seq<nat>, rank: seq<nat>, pairs: seq<(nat, nat)>): (run: Run)
    requires WellFormed(p, rank) && PairsInRange(pairs, |p|)
    ensures WellFormed(run.parent, run.rank) && |run.parent| == |p|
    ensures |run.answers| == |pairs|
    decreases |pairs|
  {
    if |pairs| == 0 then Run(p, rank, [])
    else
      var u := Unite(p, rank, pairs[0].0, pairs[0].1);
      var rest := UniteAll(u.parent, u.rank, pairs[1..]);
      Run(rest.parent, rest.rank, [u.merged] + rest.answers)
  }

  /** Each union that answers true removes exactly one class, and one that
      answers false removes none: after a run there are as many classes as
      before, less the number of merges. */
  lemma {:induction false} CountConservation(p: seq<nat>, rank: seq<nat>, pairs: seq<(nat, nat)>)
    requires WellFormed(p, rank) && PairsInRange(pairs, |p|)
    ensures var run := UniteAll(p, rank, pairs);
      |RootSet(run.parent)| == |RootSet(p)| - Merges(run.answers)
    decreases |pairs|
  {
    if |pairs| > 0 {
      var u := Unite(p, rank, pairs[0].0, pairs[0].1);
      UniteSound(p, rank, pairs[0].0, pairs[0].1);
      CountConservation(u.parent, u.rank, pairs[1..]);
    }
  }

  /** Once two elements are in the same class they stay so for the rest
      of any run of unions. */
  lemma {:induction false} ClassesOnlyGrow(p: seq<nat>, rank: seq<nat>, pairs: seq<(nat, nat)>, i: nat, j: nat)
    requires WellFormed(p, rank) && PairsInRange(pairs, |p|)
    requires SameClass(p, rank, i, j)
    ensures var run := UniteAll(p, rank, pairs); SameClass(run.parent, run.rank, i, j)
    decreases |pairs|
  {
    if |pairs| > 0 {
      var u := Unite(p, rank, pairs[0].0, pairs[0].1);
      UniteKeepsClasses(p, rank, pairs[0].0, pairs[0].1);
      ClassesOnlyGrow(u.parent, u.rank, pairs[1..], i, j);
    }
  }

  /** In a table where every element is its own parent there are `|p|`
      classes. */
  lemma {:induction false} AllSingletons(p: seq<nat>)
    requires forall i :: 0 <= i < |p| ==> p[i] == i
    ensures |RootSet(p)| == |p|
  {
    if |p| > 0 {
      var q := p[..|p| - 1];
      AllSingletons(q);
      assert RootSet(p) == RootSet(q) + {|p| - 1};
    }
  }
}

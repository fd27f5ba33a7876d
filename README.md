# UnionFind in Dafny

A model of `UnionFind<K>` from `src/unionfind.rs`: a disjoint-set structure
over the elements `0 .. n - 1`, stored as two tables of equal length.
`parent[i]` is the parent of `i`, and a representative is its own parent.
`rank[i]` is the rank of `i`.

The structure offers four operations:

- `new(n)` makes `n` singleton classes.
- `find(x)` walks parent links up to the representative.
- `find_mut(x)` does the same and re-points every element on the path
  straight at the representative (full path compression).
- `union(x, y)` compresses both paths. If the two representatives differ,
  it hangs the one of lower rank under the other. On a tie, `y`'s
  representative goes under `x`'s, whose rank grows by one. It answers
  whether a merge happened.

The project has five modules:

- `Forest` (`forest.dfy`) is the pure model over `seq<nat>`.
  - `WellFormed` is the invariant: every parent is an element, and every
    non-root ranks strictly below its parent. This is what makes parent
    chains finite. `MaxRank(rank) - rank[x]` is the termination measure of
    every walk to a root.
  - `Root` and `Path` describe where a walk from `x` goes.
  - `Compress` is the parent table after path compression.
  - `Link` and `Unite` are the effect of a union, and `UniteAll` is the
    effect of a run of unions.
  - The lemmas state what each of these does to the classes.
- `UnionFind` (`unionfind.dfy`) is the class.
  - Its tables are `array<nat>` fields updated in place.
  - `Valid()` is the class invariant.
  - Each method is proved against the functions of `Forest`.
- `Balance` (`balance.dfy`) proves that union by rank keeps the forest
  balanced. A root of rank `k` represents at least `2^k` elements, so every
  rank is at most `log2 n`. This is part of `Valid()`.
- `Labels` (`labels.dfy`) is an independent reference for the partition.
  Each element carries a label, and a union relabels one class ("quick
  find"). It proves that a run of unions on the forest gives the same
  answers and the same classes as the run on labels.
- `Scenarios` (`scenarios.dfy`) holds two fixed runs, derived from the
  contracts alone.

## Model

| member | source | states |
|---|---|---|
| Forest.Root | src/unionfind.rs:17-19 | the element reached from `x` by parent links is a root (its own parent); if it is not `x`, then `x` is not a root and ranks strictly below it |
| Forest.PathFollowsParents | src/unionfind.rs:71-78 | along the path from `x`, each element before the last is a non-root whose parent is the next element |
| Forest.CompressEffect | src/unionfind.rs:97-108 | after compression from `x`, `x` and every element of its old path point at the root; every other element keeps its parent |
| Forest.CompressStep | src/unionfind.rs:99-104 | compression from a non-root `x` is compression from `parent[x]`, then `parent[x] := root`; this is the recursion of `find_mut_recursive` |
| Forest.CompressWellFormed | src/unionfind.rs:97-108 | path compression keeps the tables well formed |
| Forest.CompressSound | src/unionfind.rs:97-108 | path compression changes no element's representative and no root |
| Forest.CompressIdempotent | src/unionfind.rs:83-95 | a second `find_mut(x)` right after the first changes nothing more |
| Forest.CompressBothSound | src/unionfind.rs:121-122 | the two lookups at the start of a union keep every representative and every root |
| Forest.LinkSound | src/unionfind.rs:133-143 | hanging root `a` under root `b` merges exactly the class of `a` into that of `b`; `a` stops being a root; the number of classes drops by one |
| Forest.LinkSoundByRank | src/unionfind.rs:133-143 | linking by rank merges the two classes under the root of higher rank (`x`'s root on a tie), keeps every other class, and leaves one class fewer |
| Forest.Unite | src/unionfind.rs:116-145 | a union leaves well-formed tables of the same length |
| Forest.UniteSound | src/unionfind.rs:111-145 | a union answers true exactly when `x != y` and their representatives differ; on false every representative stays; on true the two classes become one under the rank winner, all others stay, and `x`, `y` share a class; the number of classes drops by one exactly on true |
| Forest.MergedPartition | src/unionfind.rs:17-19 | after a merge of two classes, two elements are related exactly when they were related before or both lay in the merged classes |
| Forest.UniteSymmetric | src/unionfind.rs:116-145 | `union(x, y)` and `union(y, x)` give the same answer and the same partition |
| Forest.UniteKeepsClasses | src/unionfind.rs:116-145 | elements in one class before a union are in one class after it |
| Forest.UniteAll | src/unionfind.rs:116-145 | any run of unions leaves well-formed tables of the same length and one answer per union |
| Forest.CountConservation | src/unionfind.rs:111-113 | after a run of unions the number of classes is the initial number less the number of unions that answered true |
| Forest.ClassesOnlyGrow | src/unionfind.rs:116-145 | two elements in one class stay in one class for the rest of any run of unions |
| Forest.AllSingletons | src/unionfind.rs:42-61 | a table where every element is its own parent has `n` classes |
| UnionFind.UnionFind.constructor | src/unionfind.rs:42-61 | fresh tables of length `n`, `parent[i] == i`, `rank[i] == 0`, `n` classes, invariant established (`n == 0` gives empty tables) |
| UnionFind.UnionFind.Find | src/unionfind.rs:66-81 | for `x < n`: returns a root that is `x`'s representative and lies on the path from `x`; it modifies nothing |
| UnionFind.UnionFind.FindMut | src/unionfind.rs:89-95 | for `x < n`: returns the representative `find` would have returned; afterwards the parent table is the compression from `x`, `parent[x]` and every element on the old path point at it, others keep their parent, no representative or root changes, rank is not touched, invariant kept |
| UnionFind.UnionFind.FindMutRecursive | src/unionfind.rs:97-108 | the recursive compression: returns the old representative and leaves exactly `Compress(old parent, rank, x)`, with classes and roots unchanged |
| UnionFind.PathStep | src/unionfind.rs:71-78 | the parent of a non-root on the path from `x` is on that path too (the invariant of `find`'s loop) |
| UnionFind.UnionFind.Union | src/unionfind.rs:116-145 | the answer and the new tables are those of `Unite`; answers true exactly when `x != y` with different representatives; `x == y` needs no bounds and changes nothing; afterwards `x`, `y` share a representative; on true the two classes merge under the rank winner and all others keep theirs, otherwise every representative stays; the number of classes drops by one exactly on true; invariant kept |
| UnionFind.UnionFind.LinkRoots | src/unionfind.rs:133-143 | lower rank goes under higher with no rank change; on a tie `y`'s root goes under `x`'s and `rank[x's root]` grows by exactly one |
| Balance.SingletonsBalanced | src/unionfind.rs:42-61 | `n` singletons of rank 0 satisfy the balance invariant |
| Balance.SameClassesBalanced | src/unionfind.rs:97-108 | a change of parents that keeps every representative and every rank keeps the balance invariant |
| Balance.WinnerBalanced | src/unionfind.rs:139-143 | on a tie the merged class has at least `2^(k+1)` elements, so the rank increment is justified |
| Balance.MergeBalanced | src/unionfind.rs:133-143 | merging two classes under the root of higher rank, with its rank kept or raised by one on a tie, keeps the balance invariant |
| Balance.UniteBalanced | src/unionfind.rs:116-145 | every union keeps the balance invariant |
| Balance.RankLogarithmic | src/unionfind.rs:21-22 | in a balanced forest `2^rank[i] <= n` for every element |
| Balance.RanksFitInByte | src/unionfind.rs:21-26 | with fewer than `2^64` elements every rank is below 64, so the one-byte rank table (and its `+= 1`) never overflows |
| Labels.MergeRelabels | src/unionfind.rs:133-143 | merging the classes of `x` and `y` is relabelling `y`'s class with `x`'s label |
| Labels.UniteRelabels | src/unionfind.rs:111-145 | a union answers true exactly when the labels of `x` and `y` differ; the new classes are labelled by that relabelling on true, and by the old labels on false |
| Labels.RunMatchesQuickFind | src/unionfind.rs:116-145 | a run of unions on the forest gives the same answers as the same run on labels, and ends with the classes the final labels describe |
| Scenarios.FiveElements | src/unionfind.rs:116-145 | from five singletons, unions (0,1), (2,3), (1,3), (0,3), (4,0) answer true, true, true, false, true; all five end in one class, and there is one class |
| Scenarios.TieBreak | src/unionfind.rs:139-143 | on two fresh singletons, `union(0, 1)` leaves 0 as the representative of 1 and raises `rank[0]` to 1 |

## Left out

- The generic index type `K: num::UnsignedInt` and `to_uint`
  (src/unionfind.rs:15, 30). Indices are `nat`. The unrolled first
  iteration of `new` (src/unionfind.rs:51-59), which avoids wrap-around of
  an 8-bit index, is then moot: the model fills `parent` with `0 .. n - 1`
  directly.
- `Vec::with_capacity` and `push` (src/unionfind.rs:44-59). The tables are
  arrays of length `n` filled by the same two loops. Capacity is not
  modelled.
- `get_unchecked` and `unsafe` (src/unionfind.rs:33-37). Indexing is
  ordinary array indexing, justified by the bounds requirements and
  `Valid()`.
- Panics. The bounds asserts of `find` and `find_mut` become
  `x < parent.Length` requirements. `union` requires both indices in range
  only when `x != y`. The source checks `x == y` before any lookup, so
  `union(x, x)` answers false even for an out-of-range `x`. A general
  description of the structure says every out-of-range index fails; the
  model follows the code.
- The width of `rank` (`u8`, src/unionfind.rs:26). Ranks are `nat`. No
  wrap-around is modelled because none can happen: `Balance.RanksFitInByte`
  shows that every rank stays below 64 whenever `n < 2^64`.
- `#[derive(Show, Clone)]` (src/unionfind.rs:14). Formatting and cloning
  are not behaviour of the structure.
- The amortised `O(α(n))` cost claim (src/unionfind.rs:12-13). It is a
  statement about running time, not about results.
- Scenarios.FiveElements: stated on the pure model (`UniteAll`, which
  `Union` is proved to follow step by step), not as a run of the class's
  methods, to keep the proof small. The two-element tie-break scenario is
  stated on the class.

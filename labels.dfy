/** An independent reference for the partition a forest represents: a
    label per element, equal exactly for elements of one class.  A union
    is then the relabelling of one class with the label of the other. */
module Labels {
  import opened Forest

  /** `lbl` labels the classes of the forest: two elements have the same
      representative exactly when they carry the same label. */
  ghost predicate Labelled(p: seq<nat>, rank: seq<nat>, lbl: seq<nat>)
  {
    && WellFormed(p, rank) && |lbl| == |p|
    && forall i, j :: 0 <= i < |p| && 0 <= j < |p| ==>
         (Root(p, rank, i) == Root(p, rank, j) <==> lbl[i] == lbl[j])
  }

  /** Every element labelled `from` is labelled `to` instead. */
  function Relabel(lbl: seq<nat>, from: nat, to: nat): seq<nat>
  {
    seq(|lbl|, i requires 0 <= i < |lbl| => if lbl[i] == from then to else lbl[i])
  }

  /** Merging the classes of `x` and `y` under `w` is relabelling the
      class of `y` with the label of `x`. */
  lemma MergeRelabels(p: seq<nat>, rank: seq<nat>, p2: seq<nat>, rank2: seq<nat>, x: nat, y: nat, w: nat, lbl: seq<nat>)
    requires Labelled(p, rank, lbl) && x < |p| && y < |p|
    requires MergedClasses(p, rank, p2, rank2, Root(p, rank, x), Root(p, rank, y), w)
    requires Root(p, rank, x) != Root(p, rank, y)
    requires w == Root(p, rank, x) || w == Root(p, rank, y)
    ensures Labelled(p2, rank2, Relabel(lbl, lbl[y], lbl[x]))
  {
    var l2 := Relabel(lbl, lbl[y], lbl[x]);
    forall i, j | 0 <= i < |p| && 0 <= j < |p|
      ensures Root(p2, rank2, i) == Root(p2, rank2, j) <==> l2[i] == l2[j]
    {
      MergedLabel(p, rank, p2, rank2, x, y, w, lbl, i);
      MergedLabel(p, rank, p2, rank2, x, y, w, lbl, j);
    }
  }

  lemma MergedLabel(p: seq<nat>, rank: seq<nat>, p2: seq<nat>, rank2: seq<nat>, x: nat, y: nat, w: nat, lbl: seq<nat>, i: nat)
    requires Labelled(p, rank, lbl) && x < |p| && y < |p| && i < |p|
    requires MergedClasses(p, rank, p2, rank2, Root(p, rank, x), Root(p, rank, y), w)
    requires Root(p, rank, x) != Root(p, rank, y)
    requires w == Root(p, rank, x) || w == Root(p, rank, y)
    ensures lbl[x] != lbl[y]
    ensures Root(p2, rank2, i) == (if lbl[i] == lbl[x] || lbl[i] == lbl[y] then w else Root(p, rank, i))
    ensures lbl[i] == lbl[x] || lbl[i] == lbl[y] || Root(p, rank, i) != w
  {
  }

  /** A union answers true exactly when the labels of `x` and `y` differ;
      the classes afterwards are labelled by giving the class of `y` the
      label of `x` when it answers true, and by the old labels otherwise. */
  lemma UniteRelabels(p: seq<nat>, rank: seq<nat>, x: nat, y: nat, lbl: seq<nat>)
    requires Labelled(p, rank, lbl)
    requires x != y ==> x < |p| && y < |p|
    ensures var u := Unite(p, rank, x, y);
      && (u.merged <==> x != y && lbl[x] != lbl[y])
      && Labelled(u.parent, u.rank, if u.merged then Relabel(lbl, lbl[y], lbl[x]) else lbl)
  {
    var u := Unite(p, rank, x, y);
    UniteSound(p, rank, x, y);
    if !u.merged {
      SameClassesRelabel(p, rank, u.parent, u.rank, lbl);
    } else {
      var xr, yr := Root(p, rank, x), Root(p, rank, y);
      MergeRelabels(p, rank, u.parent, u.rank, x, y, Winner(rank, xr, yr), lbl);
    }
  }

  /** Forests with the same classes carry the same labels. */
  lemma SameClassesRelabel(p: seq<nat>, rank: seq<nat>, p2: seq<nat>, rank2: seq<nat>, lbl: seq<nat>)
    requires Labelled(p, rank, lbl) && SameClasses(p, rank, p2, rank2)
    ensures Labelled(p2, rank2, lbl)
  {
  }

  /** The same run of unions on labels alone ("quick find"): a union of
      two elements with different labels relabels the class of `y` and
      answers true; otherwise nothing changes and the answer is false.
      Returns the final labels and the answers in order. */
  function QuickFind(lbl: seq<nat>, pairs: seq<(nat, nat)>): (seq<nat>, seq<bool>)
    requires PairsInRange(pairs, |lbl|)
    decreases |pairs|
  {
    if |pairs| == 0 then (lbl, [])
    else
      var x, y := pairs[0].0, pairs[0].1;
      var merged := x != y && lbl[x] != lbl[y];
      var next := if merged then Relabel(lbl, lbl[y], lbl[x]) else lbl;
      var rest := QuickFind(next, pairs[1..]);
      (rest.0, [merged] + rest.1)
  }

  /** A run of unions on the forest gives the same answers as the same
      run on labels, and ends with the classes the labels describe. */
  lemma {:induction false} RunMatchesQuickFind(p: seq<nat>, rank: seq<nat>, pairs: seq<(nat, nat)>, lbl: seq<nat>)
    requires Labelled(p, rank, lbl) && PairsInRange(pairs, |p|)
    ensures var run, qf := UniteAll(p, rank, pairs), QuickFind(lbl, pairs);
      run.answers == qf.1 && Labelled(run.parent, run.rank, qf.0)
    decreases |pairs|
  {
    if |pairs| > 0 {
      var x, y := pairs[0].0, pairs[0].1;
      var u := Unite(p, rank, x, y);
      UniteRelabels(p, rank, x, y, lbl);
      var next := if u.merged then Relabel(lbl, lbl[y], lbl[x]) else lbl;
      RunMatchesQuickFind(u.parent, u.rank, pairs[1..], next);
    }
  }
}

/** Two fixed runs: one on the pure model, one on the class, whose
    answers follow from the contracts alone. */
module Scenarios {
  import opened Forest
  import opened UnionFind
  import opened Labels

  /** Five singletons; unions of 0 and 1, of 2 and 3, of 1 and 3, of 0
      and 3 (already joined), and of 4 and 0.  Only the fourth answers
      false, and in the end all five share one representative. */
  lemma FiveElements(p: seq<nat>, rank: seq<nat>)
    requires |p| == |rank| == 5
    requires forall i :: 0 <= i < 5 ==> p[i] == i && rank[i] == 0
    ensures WellFormed(p, rank) && PairsInRange([(0, 1), (2, 3), (1, 3), (0, 3), (4, 0)], 5)
    ensures var run := UniteAll(p, rank, [(0, 1), (2, 3), (1, 3), (0, 3), (4, 0)]);
      && run.answers == [true, true, true, false, true]
      && (forall i :: 0 <= i < 5 ==> SameClass(run.parent, run.rank, i, 0))
      && |RootSet(run.parent)| == 1
  {
    var pairs: seq<(nat, nat)> := [(0, 1), (2, 3), (1, 3), (0, 3), (4, 0)];
    FiveElementsLabelled(p, rank);
    var run := UniteAll(p, rank, pairs);
    OneLabelOneClass(run.parent, run.rank, seq(5, i => 4), 4);
    AllSingletons(p);
    CountConservation(p, rank, pairs);
    assert Merges([true, true, true, false, true]) == 4;
  }

  /** The five-element run ends with every element labelled 4. */
  lemma FiveElementsLabelled(p: seq<nat>, rank: seq<nat>)
    requires |p| == |rank| == 5
    requires forall i :: 0 <= i < 5 ==> p[i] == i && rank[i] == 0
    ensures WellFormed(p, rank) && PairsInRange([(0, 1), (2, 3), (1, 3), (0, 3), (4, 0)], 5)
    ensures var run := UniteAll(p, rank, [(0, 1), (2, 3), (1, 3), (0, 3), (4, 0)]);
      && run.answers == [true, true, true, false, true]
      && Labelled(run.parent, run.rank, seq(5, i => 4))
  {
    var pairs: seq<(nat, nat)> := [(0, 1), (2, 3), (1, 3), (0, 3), (4, 0)];
    var l: seq<nat> := [0, 1, 2, 3, 4];
    assert Labelled(p, rank, l);
    RunMatchesQuickFind(p, rank, pairs, l);
    FiveElementsLabels();
  }

  /** Elements that all carry one label are all in one class. */
  lemma OneLabelOneClass(p: seq<nat>, rank: seq<nat>, lbl: seq<nat>, c: nat)
    requires Labelled(p, rank, lbl) && |p| > 0
    requires lbl == seq(|p|, i => c)
    ensures forall i :: 0 <= i < |p| ==> SameClass(p, rank, i, 0)
  {
  }

  /** The five-element run on labels alone. */
  lemma FiveElementsLabels()
    ensures PairsInRange([(0, 1), (2, 3), (1, 3), (0, 3), (4, 0)], 5)
    ensures QuickFind([0, 1, 2, 3, 4], [(0, 1), (2, 3), (1, 3), (0, 3), (4, 0)])
              == (seq(5, i => 4), [true, true, true, false, true])
  {
    var pairs: seq<(nat, nat)> := [(0, 1), (2, 3), (1, 3), (0, 3), (4, 0)];
    var l1: seq<nat> := [0, 1, 2, 3, 4];
    var l5: seq<nat> := [4, 4, 4, 4, 4];
    LastFourLabels();
    assert pairs[1..] == [(2, 3), (1, 3), (0, 3), (4, 0)];
    assert Relabel(l1, 1, 0) == [0, 0, 2, 3, 4];
    var q0 := QuickFind(l1, pairs);
    assert q0.1 == [true, true, true, false, true] && q0.0 == l5;
    assert seq(5, i => 4) == l5;
  }

  /** The last four unions of the five-element run, on labels. */
  lemma LastFourLabels()
    ensures PairsInRange([(2, 3), (1, 3), (0, 3), (4, 0)], 5)
    ensures QuickFind([0, 0, 2, 3, 4], [(2, 3), (1, 3), (0, 3), (4, 0)])
              == ([4, 4, 4, 4, 4], [true, true, false, true])
  {
    var pairs: seq<(nat, nat)> := [(2, 3), (1, 3), (0, 3), (4, 0)];
    var l2: seq<nat> := [0, 0, 2, 3, 4];
    var l5: seq<nat> := [4, 4, 4, 4, 4];
    LastThreeLabels();
    assert pairs[1..] == [(1, 3), (0, 3), (4, 0)];
    assert Relabel(l2, 3, 2) == [0, 0, 2, 2, 4];
    var q0 := QuickFind(l2, pairs);
    assert q0.1 == [true, true, false, true] && q0.0 == l5;
  }

  /** The last three unions of the five-element run, on labels. */
  lemma LastThreeLabels()
    ensures PairsInRange([(1, 3), (0, 3), (4, 0)], 5)
    ensures QuickFind([0, 0, 2, 2, 4], [(1, 3), (0, 3), (4, 0)]) == ([4, 4, 4, 4, 4], [true, false, true])
  {
    var pairs: seq<(nat, nat)> := [(1, 3), (0, 3), (4, 0)];
    var l3: seq<nat> := [0, 0, 2, 2, 4];
    var l4: seq<nat> := [0, 0, 0, 0, 4];
    var l5: seq<nat> := [4, 4, 4, 4, 4];
    assert Relabel(l4, 0, 4) == l5;
    assert QuickFind(l5, pairs[3..]) == (l5, []);
    assert pairs[2..][0] == pairs[2] && pairs[2..][1..] == pairs[3..];
    var q2 := QuickFind(l4, pairs[2..]);
    assert q2.1 == [true] && q2.0 == l5;
    assert pairs[1..][0] == pairs[1] && pairs[1..][1..] == pairs[2..];
    var q1 := QuickFind(l4, pairs[1..]);
    assert q1.1 == [false, true] && q1.0 == l5;
    assert Relabel(l3, 2, 0) == l4;
    var q0 := QuickFind(l3, pairs);
    assert q0.1 == [true, false, true] && q0.0 == l5;
  }

  /** Two singletons of equal rank: the union keeps 0 as the
      representative and raises its rank to 1. */
  method TieBreak() returns (rep: nat, rank0: nat)
    ensures rep == 0 && rank0 == 1
  {
    var uf := new UnionFind(2);
    var merged := uf.Union(0, 1);
    rep := uf.Find(1);
    rank0 := uf.rank[0];
  }
}

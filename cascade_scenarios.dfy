/** Concrete runs of the cascade on the directed cycle A -> B -> C -> D -> A, started from A. */
module CascadeScenarios {
  import opened Graphs
  import opened Cascade

  function Cycle(): (g: Graph)
    ensures g.Valid()
  {
    Graph(["A", "B", "C", "D"], [[1], [2], [3], [0]], [[3], [0], [1], [2]])
  }

  /** Threshold 0.5: round 1 activates only B. C is scanned after B but still sees B inactive,
      because the update is synchronous; C follows in round 2 and D in round 3, and round 4
      adds nothing. */
  lemma CycleHalfThreshold()
    ensures InitialActivity(Cycle(), ["A"]) == [true, false, false, false]
    ensures Round(Cycle(), [true, false, false, false], 0.5) == [true, true, false, false]
    ensures Run(Cycle(), [true, false, false, false], 0.5) == [true, true, true, true]
    ensures Rounds(Cycle(), [true, false, false, false], 0.5) == 4
  {
    var g := Cycle();
    var s0, s1, s2, s3 := [true, false, false, false], [true, true, false, false], [true, true, true, false], [true, true, true, true];
    assert ActiveAmong([3], s0) == 0 && ActiveAmong([0], s0) == 1 && ActiveAmong([1], s0) == 0 && ActiveAmong([2], s0) == 0;
    assert Round(g, s0, 0.5) == s1;
    assert ActiveAmong([1], s1) == 1 && ActiveAmong([2], s1) == 0;
    assert Round(g, s1, 0.5) == s2;
    assert ActiveAmong([2], s2) == 1;
    assert Round(g, s2, 0.5) == s3;
    assert Round(g, s3, 0.5) == s3;
  }

  /** Threshold 0: `0 / 1 >= 0` holds, so every node with a predecessor (all of them) is
      activated in round 1 and round 2 adds nothing. */
  lemma CycleZeroThreshold()
    ensures Round(Cycle(), [true, false, false, false], 0.0) == [true, true, true, true]
    ensures Run(Cycle(), [true, false, false, false], 0.0) == [true, true, true, true]
    ensures Rounds(Cycle(), [true, false, false, false], 0.0) == 2
  {
    var g := Cycle();
    var s0, s1 := [true, false, false, false], [true, true, true, true];
    assert ActiveAmong([3], s0) == 0 && ActiveAmong([0], s0) == 1 && ActiveAmong([1], s0) == 0 && ActiveAmong([2], s0) == 0;
    assert Round(g, s0, 0.0) == s1;
    assert Round(g, s1, 0.0) == s1;
  }
}

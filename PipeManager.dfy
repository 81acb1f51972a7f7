/** The pipe rows of src/battle/PipeManager.ts: the gap that narrows with the score,
    the hole slot drawn from the seeded generator, the four sprites of a row, and the
    pruning of rows that have left the screen. Sprites are reduced to their texture,
    position and vertical scale; physics and drawing are not part of this model. */
module PipeManager {
  // ---------------------------------------------------------------------------
  // Gap and slot arithmetic of addRowOfPipes

  /** The constants a row is laid out with; they live in a module that is not part of
      this model, so they are parameters. */
  datatype Layout = Layout(gameAreaHeight: real, baseGapHeight: int, gameAreaTopOffset: real)

  const Slots := 7
  const PipeEdgeBuffer := 170
  const FloorAvoidanceHeight := 40
  /** The score step at which the gap narrows by one, and the most it narrows. */
  const NarrowEvery := 20
  const MaxNarrowing := 6

  function Min(a: int, b: int): int { if a <= b then a else b }

  /** `constants.gapHeight - Math.min(Math.floor(score / 20), 6)`. */
  function GapHeight(layout: Layout, score: int): (gap: int)
    ensures score >= 0 ==> layout.baseGapHeight - MaxNarrowing <= gap <= layout.baseGapHeight
  {
    layout.baseGapHeight - Min(score / NarrowEvery, MaxNarrowing)
  }

  /** Below a score of 20 the gap is the base gap. */
  lemma GapIsBaseBelowTwenty(layout: Layout, score: int)
    requires 0 <= score < NarrowEvery
    ensures GapHeight(layout, score) == layout.baseGapHeight
  {
  }

  /** Each full 20 points narrow the gap by one, up to 120 points. */
  lemma GapNarrowsByOnePerTwenty(layout: Layout, k: nat, r: nat)
    requires k <= MaxNarrowing && r < NarrowEvery
    ensures GapHeight(layout, NarrowEvery * k + r) == layout.baseGapHeight - k
  {
    assert (NarrowEvery * k + r) / NarrowEvery == k;
  }

  /** For non-negative scores the gap narrows by at most 6. */
  lemma GapNeverBelowSixLess(layout: Layout, score: int)
    requires score >= 0
    ensures layout.baseGapHeight - MaxNarrowing <= GapHeight(layout, score) <= layout.baseGapHeight
  {
  }

  /** A higher score never widens the gap. */
  lemma GapNeverWidens(layout: Layout, a: int, b: int)
    requires a <= b
    ensures GapHeight(layout, b) <= GapHeight(layout, a)
  {
    DivMonotone(a, b, NarrowEvery);
  }

  lemma DivMonotone(a: int, b: int, d: int)
    requires a <= b && d > 0
    ensures a / d <= b / d
  {
    if a / d > b / d {
      assert d * (a / d) >= d * (b / d + 1) by {
        MulMonotone(d, b / d + 1, a / d);
      }
    }
  }

  lemma MulMonotone(d: int, x: int, y: int)
    requires d > 0 && x <= y
    ensures d * x <= d * y
  {
  }

  /** `Math.floor(rng() * 5) + 1` for a draw in [0, 1). */
  function HoleSlot(draw: real): (slot: int)
    requires 0.0 <= draw < 1.0
    ensures 1 <= slot <= 5
  {
    (draw * 5.0).Floor + 1
  }

  /** Every slot from 1 to 5 is drawn by the draws in [(k-1)/5, k/5); slots 6 and 7
      of the seven intervals never are. */
  lemma HoleSlotReaches(k: int)
    requires 1 <= k <= 5
    ensures HoleSlot((k - 1) as real / 5.0) == k
  {
  }

  /** `Math.round`: halves round up. */
  function Round(x: real): (r: int)
    ensures x - 0.5 < r as real <= x + 0.5
  {
    (x + 0.5).Floor
  }

  lemma RoundMonotone(x: real, y: real)
    requires x <= y
    ensures Round(x) <= Round(y)
  {
  }

  /** The distance between two potential hole positions. */
  function PipeIntervals(layout: Layout, gap: int): real
  {
    (layout.gameAreaHeight - PipeEdgeBuffer as real / 2.0 - gap as real / 2.0) / Slots as real
  }

  /** The centre line of the hole before rounding, with the half gap added by `sign`. */
  function HoleEdge(layout: Layout, gap: int, slot: int, halfGap: real): real
  {
    PipeIntervals(layout, gap) * slot as real + PipeEdgeBuffer as real / 2.0 + halfGap
      - FloorAvoidanceHeight as real + layout.gameAreaTopOffset
  }

  function HoleTop(layout: Layout, gap: int, slot: int): (top: int)
    ensures HoleEdge(layout, gap, slot, -(gap as real / 2.0)) - 0.5 < top as real
      <= HoleEdge(layout, gap, slot, -(gap as real / 2.0)) + 0.5
  {
    Round(HoleEdge(layout, gap, slot, -(gap as real / 2.0)))
  }

  function HoleBottom(layout: Layout, gap: int, slot: int): (bottom: int)
    ensures HoleEdge(layout, gap, slot, gap as real / 2.0) - 0.5 < bottom as real
      <= HoleEdge(layout, gap, slot, gap as real / 2.0) + 0.5
  {
    Round(HoleEdge(layout, gap, slot, gap as real / 2.0))
  }

  /** The top of the hole is never below its bottom while the gap is not negative. */
  lemma HoleTopAtMostBottom(layout: Layout, gap: int, slot: int)
    requires gap >= 0
    ensures HoleTop(layout, gap, slot) <= HoleBottom(layout, gap, slot)
  {
    RoundMonotone(HoleEdge(layout, gap, slot, -(gap as real / 2.0)), HoleEdge(layout, gap, slot, gap as real / 2.0));
  }

  /** A sprite: its texture, its position and its vertical scale. */
  datatype Sprite = Sprite(key: string, x: real, y: real, scaleY: real)

  /** The four sprites of a row, in the order the group holds them. */
  function AddRowOfPipes(layout: Layout, x: real, score: int, draw: real): (row: seq<Sprite>)
    requires 0.0 <= draw < 1.0
    ensures |row| == 4
    ensures row[0].key == "pipe-top" && row[1].key == "pipe-body" && row[2].key == "pipe-bottom" && row[3].key == "pipe-body"
    ensures forall i :: 0 <= i < 4 ==> row[i].x == x
    ensures row[1].y == row[0].y - 5.0 && row[3].y == layout.gameAreaHeight
    ensures row[3].scaleY == layout.gameAreaHeight - row[2].y - 5.0
    ensures GapHeight(layout, score) >= 0 ==> row[0].y <= row[2].y
  {
    var gap := GapHeight(layout, score);
    var slot := HoleSlot(draw);
    var holeTop := HoleTop(layout, gap, slot);
    var holeBottom := HoleBottom(layout, gap, slot);
    assert gap >= 0 ==> holeTop <= holeBottom by {
      if gap >= 0 {
        HoleTopAtMostBottom(layout, gap, slot);
      }
    }
    [Sprite("pipe-top", x, holeTop as real, 1.0),
     Sprite("pipe-body", x, holeTop as real - 5.0, 4000.0),
     Sprite("pipe-bottom", x, holeBottom as real, 1.0),
     Sprite("pipe-body", x, layout.gameAreaHeight, layout.gameAreaHeight - holeBottom as real - 5.0)]
  }

  // ---------------------------------------------------------------------------
  // pipeOutOfBoundsCheck

  /** A group of pipe sprites on screen; only the first child's body is inspected. */
  datatype PipeGroup = PipeGroup(children: seq<Sprite>)

  /** A group whose first child is further left than -60. */
  predicate OffScreen(g: PipeGroup)
    requires |g.children| >= 1
    ensures OffScreen(g) ==> g.children[0].x < 0.0
  {
    g.children[0].x < -60.0
  }

  predicate AllHaveChildren(pipes: seq<PipeGroup>)
  {
    forall i :: 0 <= i < |pipes| ==> |pipes[i].children| >= 1
  }

  /** Every group from index k on is on screen. */
  predicate OnScreenFrom(pipes: seq<PipeGroup>, k: nat)
    requires AllHaveChildren(pipes)
  {
    forall i :: k <= i < |pipes| ==> !OffScreen(pipes[i])
  }

  /** What `forEach` does from index k of `len` (the length when it started): it visits
      the group now at index k, if there is one, and for an off-screen group it
      shifts the front of the array off and destroys the visited group. The result is
      the array left behind and the groups destroyed, in order. */
  function Sweep(pipes: seq<PipeGroup>, k: nat, len: nat): (r: (seq<PipeGroup>, seq<PipeGroup>))
    requires AllHaveChildren(pipes)
    ensures |r.0| + |r.1| <= |pipes|
    decreases len - k
  {
    if k >= len then (pipes, [])
    else if k < |pipes| && OffScreen(pipes[k]) then
      var r := Sweep(pipes[1..], k + 1, len);
      (r.0, [pipes[k]] + r.1)
    else Sweep(pipes, k + 1, len)
  }

  /** `pipeOutOfBoundsCheck(pipes)`: the array it leaves and the groups it destroys. */
  method PipeOutOfBoundsCheck(pipes: seq<PipeGroup>) returns (remaining: seq<PipeGroup>, destroyed: seq<PipeGroup>)
    requires AllHaveChildren(pipes)
    ensures (remaining, destroyed) == Sweep(pipes, 0, |pipes|)
  {
    remaining := pipes;
    destroyed := [];
    var len := |pipes|;
    var k := 0;
    while k < len
      invariant 0 <= k <= len
      invariant AllHaveChildren(remaining)
      invariant Sweep(remaining, k, len).0 == Sweep(pipes, 0, len).0
      invariant destroyed + Sweep(remaining, k, len).1 == Sweep(pipes, 0, len).1
    {
      if k < |remaining| && OffScreen(remaining[k]) {
        var group := remaining[k];
        remaining := remaining[1..];
        destroyed := destroyed + [group];
      }
      k := k + 1;
    }
    assert Sweep(remaining, k, len) == (remaining, []);
    assert destroyed + [] == destroyed;
  }

  /** The array only ever loses groups from its front, one per destroyed group. */
  lemma {:induction false} SweepShiftsFromTheFront(pipes: seq<PipeGroup>, k: nat, len: nat)
    requires AllHaveChildren(pipes)
    ensures var r := Sweep(pipes, k, len); |r.0| + |r.1| == |pipes| && r.0 == pipes[|r.1|..]
    decreases len - k
  {
    if k < len {
      if k < |pipes| && OffScreen(pipes[k]) {
        SweepShiftsFromTheFront(pipes[1..], k + 1, len);
      } else {
        SweepShiftsFromTheFront(pipes, k + 1, len);
      }
    }
  }

  /** When only the front group is off screen the sweep does what it means to: it
      destroys that group and keeps all the others. */
  lemma {:induction false} OnlyFrontOffScreenIsPruned(pipes: seq<PipeGroup>)
    requires AllHaveChildren(pipes) && |pipes| >= 1 && OffScreen(pipes[0]) && OnScreenFrom(pipes, 1)
    ensures Sweep(pipes, 0, |pipes|) == Pruned(pipes) == (pipes[1..], [pipes[0]])
  {
    var rest := pipes[1..];
    assert OnScreenFrom(rest, 0);
    KeepAllOnScreen(rest);
    NothingOffScreenFrom(rest, 1, |pipes|);
    assert [pipes[0]] + [] == [pipes[0]];
  }

  /** With every group on screen the sweep changes nothing, as intended. */
  lemma {:induction false} AllOnScreenIsUntouched(pipes: seq<PipeGroup>)
    requires AllHaveChildren(pipes) && OnScreenFrom(pipes, 0)
    ensures Sweep(pipes, 0, |pipes|) == Pruned(pipes) == (pipes, [])
  {
    KeepAllOnScreen(pipes);
    NothingOffScreenFrom(pipes, 0, |pipes|);
  }

  /** Past index k - 1 of the array nothing is off screen: the rest of the sweep
      changes nothing. */
  lemma {:induction false} NothingOffScreenFrom(pipes: seq<PipeGroup>, k: nat, len: nat)
    requires AllHaveChildren(pipes) && OnScreenFrom(pipes, k)
    ensures Sweep(pipes, k, len) == (pipes, [])
    decreases len - k
  {
    if k < len {
      NothingOffScreenFrom(pipes, k + 1, len);
    }
  }

  lemma {:induction false} KeepAllOnScreen(pipes: seq<PipeGroup>)
    requires AllHaveChildren(pipes) && OnScreenFrom(pipes, 0)
    ensures Pruned(pipes) == (pipes, [])
  {
    if pipes != [] {
      KeepAllOnScreen(pipes[1..]);
      assert pipes == [pipes[0]] + pipes[1..];
    }
  }

  /** Three groups off screen, at -100, -90 and -80: the sweep destroys the first and
      the third. The second is shifted off the array without being destroyed, so it is
      lost, and the destroyed third stays on the array. */
  lemma SweepOfThreeOffScreenGroups()
    ensures var a, b, c := Group(-100.0), Group(-90.0), Group(-80.0);
      var r := Sweep([a, b, c], 0, 3);
      r == ([c], [a, c]) && b !in r.0 && b !in r.1
  {
    var a, b, c := Group(-100.0), Group(-90.0), Group(-80.0);
    assert OffScreen(a) && OffScreen(c);
    assert Sweep([c], 2, 3) == Sweep([c], 3, 3) == ([c], []);
    assert [b, c][1..] == [c] && [b, c][1] == c;
    assert [c] + [] == [c];
    assert Sweep([b, c], 1, 3) == ([c], [c]);
    assert [a, b, c][1..] == [b, c] && [a, b, c][0] == a;
    assert [a] + [c] == [a, c];
    assert Sweep([a, b, c], 0, 3) == ([c], [a, c]);
  }

  /** A one-sprite group at x. */
  function Group(x: real): (g: PipeGroup)
    ensures |g.children| == 1 && g.children[0].x == x
  {
    PipeGroup([Sprite("pipe-top", x, 0.0, 1.0)])
  }

  /** The evident intent: destroy exactly the off-screen groups and keep the others in
      their order. */
  function Pruned(pipes: seq<PipeGroup>): (r: (seq<PipeGroup>, seq<PipeGroup>))
    requires AllHaveChildren(pipes)
    ensures |r.0| + |r.1| == |pipes|
    ensures forall i :: 0 <= i < |r.0| ==> r.0[i] in pipes && !OffScreen(r.0[i])
    ensures forall i :: 0 <= i < |r.1| ==> r.1[i] in pipes && OffScreen(r.1[i])
  {
    if pipes == [] then ([], [])
    else
      var r := Pruned(pipes[1..]);
      if OffScreen(pipes[0]) then (r.0, [pipes[0]] + r.1) else ([pipes[0]] + r.0, r.1)
  }

  /** The pruned array and the destroyed groups split the original array: every group
      lands in exactly one of them. */
  lemma {:induction false} PrunedPartitions(pipes: seq<PipeGroup>)
    requires AllHaveChildren(pipes)
    ensures multiset(Pruned(pipes).0) + multiset(Pruned(pipes).1) == multiset(pipes)
  {
    if pipes != [] {
      PrunedPartitions(pipes[1..]);
      assert pipes == [pipes[0]] + pipes[1..];
    }
  }

  /** The corrected check: a loop that keeps the on-screen groups and destroys the
      others. */
  method PruneOffScreenPipes(pipes: seq<PipeGroup>) returns (remaining: seq<PipeGroup>, destroyed: seq<PipeGroup>)
    requires AllHaveChildren(pipes)
    ensures (remaining, destroyed) == Pruned(pipes)
  {
    remaining := [];
    destroyed := [];
    var i := |pipes|;
    while i > 0
      invariant 0 <= i <= |pipes|
      invariant (remaining, destroyed) == Pruned(pipes[i..])
    {
      i := i - 1;
      assert pipes[i..][1..] == pipes[i + 1..];
      if OffScreen(pipes[i]) {
        destroyed := [pipes[i]] + destroyed;
      } else {
        remaining := [pipes[i]] + remaining;
      }
    }
    assert pipes[0..] == pipes;
  }
}

/** Trail geometry derived from a player's position history: one directed
    segment per consecutive pair of positions, and the facing of the token. */
module Trail {
  import opened Basics
  import opened Directions

  /** A trail piece at a 0-based cell: the side it enters from, the side it
      leaves towards, and the owner's colour (absent when the owner has none). */
  datatype Segment = Segment(at: Pos, color: Option<int>, from: Option<Direction>, to: Option<Direction>)

  /** The direction the token at a 0-based cell is turned to. */
  datatype Facing = Facing(at: Pos, dir: Option<Direction>)

  /** The direction of travel from `a` to `b`, read from the difference a - b:
      a negative x difference is Right, a positive one Left, then a positive y
      difference is Up and a negative one Down; equal cells give none. */
  function StepDirection(a: Pos, b: Pos): (r: Option<Direction>)
    ensures r.None? <==> a == b
    ensures r == Some(Right) <==> a.x < b.x
    ensures r == Some(Left) <==> a.x > b.x
    ensures r == Some(Up) <==> a.x == b.x && a.y > b.y
    ensures r == Some(Down) <==> a.x == b.x && a.y < b.y
  {
    var dx, dy := a.x - b.x, a.y - b.y;
    if dx < 0 then Some(Right)
    else if dx > 0 then Some(Left)
    else if dy > 0 then Some(Up)
    else if dy < 0 then Some(Down)
    else None
  }

  /** For a unit step the derived direction is the one moved in, in both directions
      of reading: moving recovers the step, and the step is recovered by moving. */
  lemma StepDirectionInvertsMove(p: Pos, d: Direction, q: Pos)
    ensures StepDirection(p, Move(p, d)) == Some(d)
    ensures UnitStep(p, q) ==> StepDirection(p, q).Some? && Move(p, StepDirection(p, q).value) == q
  {
  }

  /** The segments of a history, `last` being the direction derived for the
      previous pair (the seed before the first pair). */
  function Segments(steps: seq<Pos>, color: Option<int>, last: Option<Direction>): (r: seq<Segment>)
    ensures |r| == if |steps| < 2 then 0 else |steps| - 1
    decreases |steps|
  {
    if |steps| < 2 then []
    else
      var to := StepDirection(steps[0], steps[1]);
      [Segment(Shift(steps[0], -1), color, NegateOpt(last), to)] + Segments(steps[1..], color, to)
  }

  /** The direction derived for the pair ending at position j, or the seed for j == 0. */
  function Incoming(steps: seq<Pos>, seed: Option<Direction>, j: nat): Option<Direction>
    requires j < |steps|
  {
    if j == 0 then seed else StepDirection(steps[j - 1], steps[j])
  }

  /** Segment j sits at position j (made 0-based), leaves in the direction of
      the pair (j, j+1) and enters from the negation of the previous pair's
      direction. */
  lemma {:induction false} SegmentAt(steps: seq<Pos>, color: Option<int>, seed: Option<Direction>, j: nat)
    requires j < |steps| - 1
    ensures Segments(steps, color, seed)[j] ==
              Segment(Shift(steps[j], -1), color, NegateOpt(Incoming(steps, seed, j)),
                      StepDirection(steps[j], steps[j + 1]))
    decreases j
  {
    if j > 0 {
      var to := StepDirection(steps[0], steps[1]);
      SegmentAt(steps[1..], color, to, j - 1);
      assert steps[1..][j - 1] == steps[j] && steps[1..][j] == steps[j + 1];
      if j > 1 {
        assert steps[1..][j - 2] == steps[j - 1];
      }
    }
  }

  /** Where the token is turned after the history is drawn: the last position
      of the history (made 0-based), turned in the direction of the last pair,
      which for a unit step is the direction moved. */
  function FacingOf(steps: seq<Pos>): (r: Option<Facing>)
    ensures r.Some? <==> |steps| >= 2
    ensures r.Some? ==> r.value.at == Pos(steps[|steps| - 1].x - 1, steps[|steps| - 1].y - 1)
    ensures r.Some? ==> (r.value.dir.Some? <==> steps[|steps| - 2] != steps[|steps| - 1])
    ensures r.Some? && UnitStep(steps[|steps| - 2], steps[|steps| - 1]) ==>
              r.value.dir.Some? && Move(steps[|steps| - 2], r.value.dir.value) == steps[|steps| - 1]
  {
    if |steps| < 2 then None
    else
      var n := |steps|;
      Some(Facing(Shift(steps[n - 1], -1), StepDirection(steps[n - 2], steps[n - 1])))
  }

  /** The trail of one player: segments seeded with Right, and the facing. */
  datatype PlayerTrail = PlayerTrail(segments: seq<Segment>, facing: Option<Facing>)

  function TrailOf(steps: seq<Pos>, color: Option<int>): (t: PlayerTrail)
    ensures |t.segments| == if |steps| < 2 then 0 else |steps| - 1
    ensures t.facing.Some? <==> |steps| >= 2
  {
    PlayerTrail(Segments(steps, color, Some(Right)), FacingOf(steps))
  }

  /** The facing agrees with the last segment's exit direction. */
  lemma FacingMatchesLastSegment(steps: seq<Pos>, color: Option<int>)
    requires |steps| >= 2
    ensures TrailOf(steps, color).facing.value.dir == TrailOf(steps, color).segments[|steps| - 2].to
  {
    SegmentAt(steps, color, Some(Right), |steps| - 2);
  }

  // ---------------------------------------------------- histories from moves

  /** The history walked from `start` by the moves `ds`. */
  function Path(start: Pos, ds: seq<Direction>): (p: seq<Pos>)
    ensures |p| == |ds| + 1 && p[0] == start
    decreases |ds|
  {
    if |ds| == 0 then [start] else [start] + Path(Move(start, ds[0]), ds[1..])
  }

  lemma {:induction false} PathSteps(start: Pos, ds: seq<Direction>)
    ensures forall j :: 0 <= j < |ds| ==> Path(start, ds)[j + 1] == Move(Path(start, ds)[j], ds[j])
    decreases |ds|
  {
    if |ds| > 0 {
      PathSteps(Move(start, ds[0]), ds[1..]);
    }
  }

  /** Reading the trail of a walked history gives back the moves: segment j
      leaves in the j-th move's direction and enters from the opposite of the
      move before it (Left for the first, from the Right seed); the token faces
      the last move. */
  lemma TrailRecoversMoves(start: Pos, ds: seq<Direction>, color: Option<int>)
    requires |ds| > 0
    ensures var steps := Path(start, ds);
            var t := TrailOf(steps, color);
            && |t.segments| == |ds|
            && (forall j :: 0 <= j < |ds| ==> t.segments[j].to == Some(ds[j]))
            && (forall j :: 0 <= j < |ds| ==> t.segments[j].at == Shift(steps[j], -1))
            && t.segments[0].from == Some(Left)
            && (forall j :: 1 <= j < |ds| ==> t.segments[j].from == Some(Negate(ds[j - 1])))
            && t.facing == Some(Facing(Shift(steps[|ds|], -1), Some(ds[|ds| - 1])))
  {
    var steps := Path(start, ds);
    var t := TrailOf(steps, color);
    assert t.segments == Segments(steps, color, Some(Right));
    PathSteps(start, ds);
    forall j | 0 <= j < |ds|
      ensures t.segments[j] ==
                Segment(Shift(steps[j], -1), color, NegateOpt(Incoming(steps, Some(Right), j)), Some(ds[j]))
    {
      SegmentAt(steps, color, Some(Right), j);
      StepDirectionInvertsMove(steps[j], ds[j], steps[j + 1]);
    }
    forall j | 1 <= j < |ds|
      ensures Incoming(steps, Some(Right), j) == Some(ds[j - 1])
    {
      StepDirectionInvertsMove(steps[j - 1], ds[j - 1], steps[j]);
    }
    var n := |ds|;
    StepDirectionInvertsMove(steps[n - 1], ds[n - 1], steps[n]);
  }
}

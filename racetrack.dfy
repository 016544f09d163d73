/** The racetrack environment: the car's state is its cell and its velocity, an action picks one of nine
    accelerations, the velocity is clipped to [0, 4] per component, and a move is tested against the finish
    line and against the track's contour with a segment-crossing sign test on cell centres. */
module Racetrack {

  const MaxVelocity := 4
  const MinVelocity := 0

  /** The nine accelerations, indexed by action. */
  const Acceleration: seq<(int, int)> :=
    [(1, -1), (1, 0), (1, 1),
     (0, -1), (0, 0), (0, 1),
     (-1, -1), (-1, 0), (-1, 1)]

  const ActionsNum := |Acceleration|

  /** A point of the plane; cell centres sit at half-integer coordinates. */
  datatype Vec = Vec(x: real, y: real)

  /** A segment, as the two rows of a 2x2 array. */
  datatype Seg = Seg(a: Vec, b: Vec)

  /** The car's state `(x, y, vx, vy)`. */
  datatype State = State(x: int, y: int, vx: int, vy: int)

  /** A line of the track setup `(x0, y0, x1, y1)`, as `start_line` and `finish_line` are written. */
  datatype Line = Line(x0: int, y0: int, x1: int, y1: int)

  function Sub(v: Vec, base: Vec): Vec
  {
    Vec(v.x - base.x, v.y - base.y)
  }

  /** `getRelative`: both ends of the segment relative to `base`; the shift keeps the segment's direction
      and takes `base` to the origin. */
  function GetRelative(base: Vec, line: Seg): (r: Seg)
    ensures Sub(line.a, base) == r.a && Sub(line.b, base) == r.b
    ensures Sub(r.b, r.a) == Sub(line.b, line.a)
    ensures (r.a == Vec(0.0, 0.0) <==> line.a == base) && (r.b == Vec(0.0, 0.0) <==> line.b == base)
  {
    Seg(Sub(line.a, base), Sub(line.b, base))
  }

  /** `det`: the 2x2 determinant of two vectors. */
  function Det(v1: Vec, v2: Vec): real
  {
    v1.x * v2.y - v1.y * v2.x
  }

  /** The determinant changes sign when its vectors are swapped. */
  lemma DetAntisymmetric(v1: Vec, v2: Vec)
    ensures Det(v1, v2) == -Det(v2, v1)
  {
  }

  /** Whether p lies strictly on the clockwise side of the directed line through `line`: the sign of
      `det(*getRelative(p, line))`. */
  predicate Side(p: Vec, line: Seg)
  {
    var rel := GetRelative(p, line);
    Det(rel.a, rel.b) < 0.0
  }

  /** `is_intersection`: each segment's ends lie on different sides of the other's line. */
  predicate IsIntersection(l1: Seg, l2: Seg)
  {
    Side(l1.a, l2) != Side(l1.b, l2) && Side(l2.a, l1) != Side(l2.b, l1)
  }

  /** The test does not depend on the order of its two segments. */
  lemma IntersectionSymmetric(l1: Seg, l2: Seg)
    ensures IsIntersection(l1, l2) == IsIntersection(l2, l1)
  {
  }

  /** The side test in the form of the cross product of the line's direction with the point's offset. */
  lemma SideIsCross(p: Vec, line: Seg)
    ensures Side(p, line) <==> Det(Sub(line.b, line.a), Sub(p, line.a)) < 0.0
  {
    var u := Sub(line.a, p);
    var w := Sub(line.b, p);
    assert Det(u, w) == Det(Sub(line.b, line.a), Sub(p, line.a));
  }

  /** The centre of a cell. */
  function Centre(p: (int, int)): Vec
  {
    Vec(p.0 as real + 0.5, p.1 as real + 0.5)
  }

  /** A contour point as a vector. */
  function Corner(p: (int, int)): Vec
  {
    Vec(p.0 as real, p.1 as real)
  }

  /** The move from one cell to another, centre to centre. */
  function Move(position: (int, int), nextPosition: (int, int)): Seg
  {
    Seg(Centre(position), Centre(nextPosition))
  }

  /** The finish segment: the vertical from `(x0, y0)` to `(x0, y1)`; the line's `x1` is not read. */
  function FinishSegment(finishLine: Line): Seg
  {
    Seg(Vec(finishLine.x0 as real, finishLine.y0 as real), Vec(finishLine.x0 as real, finishLine.y1 as real))
  }

  /** `is_finished`: the move crosses the finish segment. */
  predicate IsFinished(finishLine: Line, position: (int, int), nextPosition: (int, int))
  {
    IsIntersection(FinishSegment(finishLine), Move(position, nextPosition))
  }

  lemma MulNegative(a: real, b: real)
    requires b != 0.0
    ensures a * b < 0.0 <==> (if b > 0.0 then a < 0.0 else a > 0.0)
  {
    if b > 0.0 {
      if a < 0.0 { assert a * b < 0.0 * b; } else { assert a * b >= 0.0 * b; }
    } else {
      if a > 0.0 { assert a * b < a * 0.0; } else { assert a * b >= a * 0.0; }
    }
  }

  /** A cell centre's side of the finish line: left of it exactly when the cell's column is left of x0
      (for a line drawn upwards; the other way round for one drawn downwards). */
  lemma FinishSide(finishLine: Line, p: (int, int))
    requires finishLine.y0 != finishLine.y1
    ensures Side(Centre(p), FinishSegment(finishLine)) <==>
              (if finishLine.y0 < finishLine.y1 then p.0 >= finishLine.x0 else p.0 < finishLine.x0)
  {
    var c := Centre(p);
    var fs := FinishSegment(finishLine);
    var dx := finishLine.x0 as real - c.x;
    var rel := GetRelative(c, fs);
    assert Det(rel.a, rel.b) == dx * (finishLine.y1 as real - finishLine.y0 as real);
    MulNegative(dx, finishLine.y1 as real - finishLine.y0 as real);
  }

  /** Which moves finish: with a degenerate finish line none does; otherwise exactly those that go from a
      column left of x0 to one at or right of it (or back), with the line's two ends on different sides of
      the move's line. */
  lemma FinishCrossing(finishLine: Line, position: (int, int), nextPosition: (int, int))
    ensures finishLine.y0 == finishLine.y1 ==> !IsFinished(finishLine, position, nextPosition)
    ensures finishLine.y0 != finishLine.y1 ==>
              (IsFinished(finishLine, position, nextPosition) <==>
                 && (position.0 >= finishLine.x0) != (nextPosition.0 >= finishLine.x0)
                 && var fs := FinishSegment(finishLine);
                    Side(fs.a, Move(position, nextPosition)) != Side(fs.b, Move(position, nextPosition)))
  {
    var fs := FinishSegment(finishLine);
    if finishLine.y0 == finishLine.y1 {
      assert fs.a == fs.b;
    } else {
      FinishSide(finishLine, position);
      FinishSide(finishLine, nextPosition);
    }
  }

  /** The contour segment from point i to point i + 1 crosses the move. */
  predicate CrossesAt(contour: seq<(int, int)>, i: int, position: (int, int), nextPosition: (int, int))
    requires 0 <= i < |contour| - 1
  {
    IsIntersection(Seg(Corner(contour[i]), Corner(contour[i + 1])), Move(position, nextPosition))
  }

  /** The move crosses some segment between consecutive contour points. */
  predicate Runout(contour: seq<(int, int)>, position: (int, int), nextPosition: (int, int))
  {
    exists i :: 0 <= i < |contour| - 1 && CrossesAt(contour, i, position, nextPosition)
  }

  /** `is_runout`: walks the contour's consecutive point pairs and answers at the first one whose segment
      the move crosses. */
  method IsRunout(contour: seq<(int, int)>, position: (int, int), nextPosition: (int, int)) returns (b: bool)
    requires |contour| >= 1
    ensures b <==> Runout(contour, position, nextPosition)
  {
    var p1 := contour[0];
    var i := 1;
    while i < |contour|
      invariant 1 <= i <= |contour| && p1 == contour[i - 1]
      invariant forall j :: 0 <= j < i - 1 ==> !CrossesAt(contour, j, position, nextPosition)
    {
      var p2 := contour[i];
      if IsIntersection(Seg(Corner(p1), Corner(p2)), Move(position, nextPosition)) {
        assert CrossesAt(contour, i - 1, position, nextPosition);
        return true;
      }
      p1 := p2;
      i := i + 1;
    }
    return false;
  }

  /** `getStartPosition`, with the random draw `x` in [x0, x1) of the start line as input. */
  function GetStartPosition(startLine: Line, x: int): (s: State)
    requires startLine.x0 <= x < startLine.x1
    ensures startLine.x0 <= s.x < startLine.x1 && s.y == 0 && s.vx == 0 && s.vy == 0
  {
    State(x, 0, 0, 0)
  }

  /** `np.clip` to [MinVelocity, MaxVelocity]. */
  function Clip(v: int): (c: int)
    ensures MinVelocity <= c <= MaxVelocity
    ensures MinVelocity <= v <= MaxVelocity ==> c == v
    ensures v < MinVelocity ==> c == MinVelocity
    ensures v > MaxVelocity ==> c == MaxVelocity
  {
    if v < MinVelocity then MinVelocity else if v > MaxVelocity then MaxVelocity else v
  }

  /** The acceleration of an action, with Python's indexing from the end for a negative index. */
  function AccelOf(action: int): (int, int)
    requires -ActionsNum <= action < ActionsNum
  {
    Acceleration[if action < 0 then action + ActionsNum else action]
  }

  /** The new velocity: the clipped sum, or the old velocity when both clipped components are 0. */
  function NextVelocity(state: State, action: int): (int, int)
    requires -ActionsNum <= action < ActionsNum
  {
    var accel := AccelOf(action);
    var v := (Clip(state.vx + accel.0), Clip(state.vy + accel.1));
    if v.0 == 0 && v.1 == 0 then (state.vx, state.vy) else v
  }

  /** The outcome of `getTransition`: finished when the move crosses the finish line (the contour is then
      not consulted), otherwise back to `start` (the value of `getStartPosition()`) on a runout, otherwise
      the moved car. */
  function Transition(contour: seq<(int, int)>, state: State, action: int, finishLine: Line, start: State)
    : (bool, State)
    requires -ActionsNum <= action < ActionsNum
  {
    var v := NextVelocity(state, action);
    var nextState := State(state.x + v.0, state.y + v.1, v.0, v.1);
    if IsFinished(finishLine, (state.x, state.y), (nextState.x, nextState.y)) then (true, nextState)
    else if Runout(contour, (state.x, state.y), (nextState.x, nextState.y)) then (false, start)
    else (false, nextState)
  }

  /** `getTransition`. */
  method GetTransition(trackContour: seq<(int, int)>, state: State, action: int, finishLine: Line, start: State)
    returns (finished: bool, nextState: State)
    requires -ActionsNum <= action < ActionsNum
    requires |trackContour| >= 1 || Transition(trackContour, state, action, finishLine, start).0
    ensures (finished, nextState) == Transition(trackContour, state, action, finishLine, start)
  {
    var accel := AccelOf(action);
    var nextVelocity := (Clip(state.vx + accel.0), Clip(state.vy + accel.1));
    if nextVelocity.0 == 0 && nextVelocity.1 == 0 {
      nextVelocity := (state.vx, state.vy);
    }
    var position := (state.x, state.y);
    var nextPosition := (position.0 + nextVelocity.0, position.1 + nextVelocity.1);
    nextState := State(nextPosition.0, nextPosition.1, nextVelocity.0, nextVelocity.1);
    if IsFinished(finishLine, position, nextPosition) {
      return true, nextState;
    }
    var runout := IsRunout(trackContour, position, nextPosition);
    if runout {
      nextState := start;
    }
    return false, nextState;
  }

  /** The nine accelerations are the nine pairs of {-1, 0, 1}, each once: action a accelerates by
      1 - a / 3 along x and by a % 3 - 1 along y. */
  lemma AccelerationTable()
    ensures ActionsNum == 9
    ensures forall a :: 0 <= a < ActionsNum ==> Acceleration[a] == (1 - a / 3, a % 3 - 1)
    ensures forall a, b :: 0 <= a < b < ActionsNum ==> Acceleration[a] != Acceleration[b]
  {
    forall a | 0 <= a < ActionsNum
      ensures Acceleration[a] == (1 - a / 3, a % 3 - 1)
    {
      AccelerationAt(a);
    }
  }

  lemma AccelerationAt(a: int)
    requires 0 <= a < ActionsNum
    ensures Acceleration[a] == (1 - a / 3, a % 3 - 1)
  {
    if a < 3 {
      assert a == 0 || a == 1 || a == 2;
    } else if a < 6 {
      assert a == 3 || a == 4 || a == 5;
    } else {
      assert a == 6 || a == 7 || a == 8;
    }
  }

  /** Velocities stay in [0, 4] per component once they start there, and only a car already at rest can
      come out of a step at rest. */
  lemma VelocityBounds(state: State, action: int)
    requires -ActionsNum <= action < ActionsNum
    requires MinVelocity <= state.vx <= MaxVelocity && MinVelocity <= state.vy <= MaxVelocity
    ensures var v := NextVelocity(state, action);
            && MinVelocity <= v.0 <= MaxVelocity && MinVelocity <= v.1 <= MaxVelocity
            && (v.0 == 0 && v.1 == 0 ==> state.vx == 0 && state.vy == 0)
  {
  }

  /** A finishing move ends the episode in the moved state even if it also leaves the track; a move that
      neither finishes nor leaves the track puts the car at its old cell plus its new velocity; leaving
      the track without finishing restarts it. */
  lemma TransitionCases(contour: seq<(int, int)>, state: State, action: int, finishLine: Line, start: State)
    requires -ActionsNum <= action < ActionsNum
    ensures var r := Transition(contour, state, action, finishLine, start);
            var v := NextVelocity(state, action);
            var moved := State(state.x + v.0, state.y + v.1, v.0, v.1);
            && (r.0 <==> IsFinished(finishLine, (state.x, state.y), (moved.x, moved.y)))
            && (r.0 ==> r.1 == moved)
            && (!r.0 ==> r.1 == if Runout(contour, (state.x, state.y), (moved.x, moved.y)) then start else moved)
  {
  }

  /** Starting from the start line, every state the transition produces again has its velocity in
      [0, 4] per component. */
  lemma TransitionKeepsVelocity(contour: seq<(int, int)>, state: State, action: int, finishLine: Line,
                                startLine: Line, x: int)
    requires -ActionsNum <= action < ActionsNum && startLine.x0 <= x < startLine.x1
    requires MinVelocity <= state.vx <= MaxVelocity && MinVelocity <= state.vy <= MaxVelocity
    ensures var r := Transition(contour, state, action, finishLine, GetStartPosition(startLine, x));
            MinVelocity <= r.1.vx <= MaxVelocity && MinVelocity <= r.1.vy <= MaxVelocity
  {
    VelocityBounds(state, action);
  }
}

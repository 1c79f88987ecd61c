/** Day 9 of 2022, "Rope Bridge": a rope of knots on a grid. The head is
    moved by a list of motions; every other knot follows the one before it
    whenever they stop touching. The answer counts the positions the last
    knot ever occupies. */
module RopeBridge {
  import opened Wrappers
  import opened Strings

  type Pos = (int, int)

  const Origin: Pos := (0, 0)

  function Abs(x: int): nat { if x < 0 then -x else x }

  function Sign(x: int): int { if x > 0 then 1 else if x < 0 then -1 else 0 }

  /** `chebyshev_distance`: the larger of the two coordinate distances, so
      knots touch (also diagonally) exactly when it is at most 1. */
  function Chebyshev(a: Pos, b: Pos): (d: nat)
    ensures d >= Abs(a.0 - b.0) && d >= Abs(a.1 - b.1)
    ensures d == Abs(a.0 - b.0) || d == Abs(a.1 - b.1)
  {
    var dx, dy := Abs(a.0 - b.0), Abs(a.1 - b.1);
    if dx > dy then dx else dy
  }

  /** `move_tail`: the step the tail takes and where it ends up. A tail
      touching the head stays put. Otherwise every gap between the two
      along an axis shrinks by one (a zero gap stays zero), so the tail gets
      exactly one closer; it never moves more than one step, diagonals
      included. */
  function MoveTail(head: Pos, tail: Pos): (r: (Pos, Pos))
    ensures r.1 == (tail.0 + r.0.0, tail.1 + r.0.1)
    ensures Chebyshev(tail, r.1) <= 1
    ensures Chebyshev(head, tail) <= 1 ==> r.1 == tail
    ensures Chebyshev(head, tail) > 1 ==>
      Abs(head.0 - r.1.0) == (if head.0 == tail.0 then 0 else Abs(head.0 - tail.0) - 1) &&
      Abs(head.1 - r.1.1) == (if head.1 == tail.1 then 0 else Abs(head.1 - tail.1) - 1)
    ensures Chebyshev(head, tail) > 1 ==> Chebyshev(head, r.1) == Chebyshev(head, tail) - 1
  {
    var step := if Chebyshev(head, tail) > 1 then (Sign(head.0 - tail.0), Sign(head.1 - tail.1)) else (0, 0);
    (step, (tail.0 + step.0, tail.1 + step.1))
  }

  // ---------------------------------------------------------------
  // Distance facts

  lemma ChebyshevSymmetric(a: Pos, b: Pos)
    ensures Chebyshev(a, b) == Chebyshev(b, a)
  {
  }

  /** Distance zero means the same place. */
  lemma ChebyshevZero(a: Pos, b: Pos)
    ensures Chebyshev(a, b) == 0 <==> a == b
  {
  }

  lemma ChebyshevTriangle(a: Pos, b: Pos, c: Pos)
    ensures Chebyshev(a, c) <= Chebyshev(a, b) + Chebyshev(b, c)
  {
  }

  /** A tail two steps away ends up touching the head. */
  lemma MoveTailTouches(head: Pos, tail: Pos)
    requires Chebyshev(head, tail) == 2
    ensures Chebyshev(head, MoveTail(head, tail).1) == 1
  {
  }

  /** The same tail moves the same way wherever the pair sits: only the
      difference matters. */
  lemma MoveTailShift(head: Pos, tail: Pos, dx: int, dy: int)
    ensures var moved := MoveTail((head.0 + dx, head.1 + dy), (tail.0 + dx, tail.1 + dy));
      moved.0 == MoveTail(head, tail).0 &&
      moved.1 == (MoveTail(head, tail).1.0 + dx, MoveTail(head, tail).1.1 + dy)
  {
  }

  // ---------------------------------------------------------------
  // One sub-step: every follower, in chain order, follows the knot ahead

  /** The rope after the inner `for i in 0..(n - 1)` loop: knot `i + 1`
      follows knot `i` as it already stands. */
  function Pull(knots: seq<Pos>): (r: seq<Pos>)
    ensures |r| == |knots|
    ensures |knots| > 0 ==> r[0] == knots[0]
    decreases |knots|
  {
    if |knots| <= 1 then knots
    else
      var front := Pull(knots[..|knots| - 1]);
      front + [MoveTail(front[|front| - 1], knots[|knots| - 1]).1]
  }

  /** Each follower ends where `move_tail` puts it behind its leader's new
      place. */
  lemma {:induction false} PullAt(knots: seq<Pos>, i: nat)
    requires i + 1 < |knots|
    ensures Pull(knots)[i + 1] == MoveTail(Pull(knots)[i], knots[i + 1]).1
    decreases |knots|
  {
    var init := knots[..|knots| - 1];
    if i + 1 < |init| {
      PullAt(init, i);
      PullPrefix(knots);
    } else {
      PullPrefix(knots);
    }
  }

  /** Pulling a rope pulls its front part the same way. */
  lemma PullPrefix(knots: seq<Pos>)
    requires |knots| > 1
    ensures Pull(knots)[..|knots| - 1] == Pull(knots[..|knots| - 1])
  {
  }

  /** No knot moves more than one step in a sub-step, except the head, which
      the sub-step does not move. */
  lemma PullMovesLittle(knots: seq<Pos>, i: nat)
    requires 0 < i < |knots|
    ensures Chebyshev(knots[i], Pull(knots)[i]) <= 1
  {
    PullAt(knots, i - 1);
  }

  predicate Settled(knots: seq<Pos>)
  {
    forall i :: 0 < i < |knots| ==> Chebyshev(knots[i - 1], knots[i]) <= 1
  }

  /** A rope whose knots all touch their leaders does not move. */
  lemma {:induction false} PullSettled(knots: seq<Pos>)
    requires Settled(knots)
    ensures Pull(knots) == knots
    decreases |knots|
  {
    if |knots| > 1 {
      var init := knots[..|knots| - 1];
      assert Settled(init) by {
        forall i | 0 < i < |init| ensures Chebyshev(init[i - 1], init[i]) <= 1 {
          assert init[i - 1] == knots[i - 1] && init[i] == knots[i];
        }
      }
      PullSettled(init);
      assert Chebyshev(knots[|knots| - 2], knots[|knots| - 1]) <= 1;
      assert knots == init + [knots[|knots| - 1]];
    }
  }

  /** Pulling one more knot appends where `move_tail` puts it behind the
      pulled front. */
  lemma PullNext(knots: seq<Pos>, i: nat, front: seq<Pos>)
    requires i + 1 < |knots| && front == Pull(knots[..i + 1])
    ensures Pull(knots[..i + 2]) == front + [MoveTail(front[i], knots[i + 1]).1]
  {
    assert knots[..i + 2][..i + 1] == knots[..i + 1];
  }

  /** One pass of the inner loop: knot `i + 1` follows knot `i`. */
  method PullKnot(knots: seq<Pos>, i: nat, r: seq<Pos>) returns (r': seq<Pos>)
    requires i + 1 < |knots| && |r| == |knots|
    requires r[..i + 1] == Pull(knots[..i + 1]) && r[i + 1..] == knots[i + 1..]
    ensures |r'| == |knots|
    ensures r'[..i + 2] == Pull(knots[..i + 2]) && r'[i + 2..] == knots[i + 2..]
  {
    var moved := MoveTail(r[i], r[i + 1]);
    PullNext(knots, i, r[..i + 1]);
    assert r[i + 1] == r[i + 1..][0];
    r' := r[i + 1 := moved.1];
    assert r'[..i + 2] == r[..i + 1] + [moved.1];
  }

  /** The inner loop of the simulation: the followers move one by one in
      chain order, the rope updated in place. */
  method PullRope(knots: seq<Pos>) returns (r: seq<Pos>)
    requires |knots| >= 1
    ensures r == Pull(knots)
  {
    r := knots;
    var i := 0;
    while i < |knots| - 1
      invariant 0 <= i < |knots| && |r| == |knots|
      invariant r[..i + 1] == Pull(knots[..i + 1])
      invariant r[i + 1..] == knots[i + 1..]
    {
      r := PullKnot(knots, i, r);
      i := i + 1;
    }
    assert r == r[..i + 1] && knots[..i + 1] == knots;
  }

  // ---------------------------------------------------------------
  // Motions

  datatype Dir = Right | Left | Up | Down

  /** One line of input: a direction and a magnitude (an `i32`). */
  datatype Motion = Motion(dir: Dir, mag: int)

  function ParseDir(s: string): Option<Dir>
  {
    if s == "R" then Some(Right)
    else if s == "L" then Some(Left)
    else if s == "U" then Some(Up)
    else if s == "D" then Some(Down)
    else None
  }

  /** `"dir mag"`; `None` where the source panics: no space, a magnitude
      that is not an `i32`, or an unknown direction. */
  function ParseMotion(line: string): (r: Option<Motion>)
    ensures r.Some? ==> I32Min <= r.value.mag < I32Limit
  {
    match SplitOnce(line, " ")
    case None => None
    case Some((dir, mag)) =>
      match ParseI32(mag)
      case None => None
      case Some(m) =>
        match ParseDir(dir)
        case None => None
        case Some(d) => Some(Motion(d, m))
  }

  /** Every line read as a motion; `None` if any line is not one. */
  function ReadMotions(lines: seq<string>): (r: Option<seq<Motion>>)
    ensures r.Some? ==> |r.value| == |lines|
    decreases |lines|
  {
    if |lines| == 0 then Some([])
    else
      match ReadMotions(lines[..|lines| - 1])
      case None => None
      case Some(ms) =>
        match ParseMotion(lines[|lines| - 1])
        case None => None
        case Some(m) => Some(ms + [m])
  }

  /** Reading succeeds exactly when every line is a motion, and then reads
      each line in place. */
  lemma {:induction false} ReadMotionsMeaning(lines: seq<string>)
    ensures ReadMotions(lines).Some? <==> forall k :: 0 <= k < |lines| ==> ParseMotion(lines[k]).Some?
    ensures ReadMotions(lines).Some? ==>
      forall k :: 0 <= k < |lines| ==> ReadMotions(lines).value[k] == ParseMotion(lines[k]).value
    decreases |lines|
  {
    if |lines| > 0 {
      var init := lines[..|lines| - 1];
      ReadMotionsMeaning(init);
      assert forall k :: 0 <= k < |init| ==> init[k] == lines[k];
    }
  }

  /** The head jumps by the whole magnitude at once. */
  function Shift(p: Pos, m: Motion): Pos
  {
    match m.dir
    case Right => (p.0 + m.mag, p.1)
    case Left => (p.0 - m.mag, p.1)
    case Up => (p.0, p.1 + m.mag)
    case Down => (p.0, p.1 - m.mag)
  }

  /** `for _ in 0..mag`: no sub-steps for a magnitude that is not positive. */
  function Steps(mag: int): nat { if mag > 0 then mag else 0 }

  // ---------------------------------------------------------------
  // The simulation

  /** The rope and the set of places its last knot has been. */
  datatype State = State(knots: seq<Pos>, visited: set<Pos>)

  function Last(knots: seq<Pos>): Pos
    requires |knots| > 0
  {
    knots[|knots| - 1]
  }

  /** One sub-step: pull the rope, then record where its last knot is. */
  function Step(s: State): (r: State)
    requires |s.knots| > 0
    ensures |r.knots| == |s.knots|
  {
    var pulled := Pull(s.knots);
    State(pulled, s.visited + {Last(pulled)})
  }

  /** `count` sub-steps in a row. */
  function SubSteps(s: State, count: nat): (r: State)
    requires |s.knots| > 0
    ensures |r.knots| == |s.knots|
    decreases count
  {
    if count == 0 then s else Step(SubSteps(s, count - 1))
  }

  /** One motion: move the head, then as many sub-steps as the magnitude. */
  function Apply(s: State, m: Motion): (r: State)
    requires |s.knots| > 0
    ensures |r.knots| == |s.knots|
  {
    SubSteps(State(s.knots[0 := Shift(s.knots[0], m)], s.visited), Steps(m.mag))
  }

  /** The motions in order. */
  function Run(s: State, ms: seq<Motion>): (r: State)
    requires |s.knots| > 0
    ensures |r.knots| == |s.knots|
    decreases |ms|
  {
    if |ms| == 0 then s else Apply(Run(s, ms[..|ms| - 1]), ms[|ms| - 1])
  }

  /** All `n` knots at the origin, which counts as visited. */
  function Start(n: nat): State
  {
    State(seq(n, _ => Origin), {Origin})
  }

  /** `simulate_rope_motion_with_n_knots`: how many places the last knot
      visits, or `None` where the source panics on a line. */
  function Simulate(input: string, n: nat): Option<nat>
    requires n >= 1
  {
    match ReadMotions(Lines(input))
    case None => None
    case Some(ms) => Some(|Run(Start(n), ms).visited|)
  }

  /** One sub-step of the motion loop: pull the rope, then record its last
      knot. */
  method StepRope(knots: seq<Pos>, visited: set<Pos>) returns (knots': seq<Pos>, visited': set<Pos>)
    requires |knots| > 0
    ensures State(knots', visited') == Step(State(knots, visited))
  {
    knots' := PullRope(knots);
    visited' := visited + {knots'[|knots'| - 1]};
  }

  /** The sub-step loop `for _ in 0..mag`, run `count` times. */
  method PullTimes(knots: seq<Pos>, visited: set<Pos>, count: nat) returns (knots': seq<Pos>, visited': set<Pos>)
    requires |knots| > 0
    ensures State(knots', visited') == SubSteps(State(knots, visited), count)
  {
    knots', visited' := knots, visited;
    for s := 0 to count
      invariant State(knots', visited') == SubSteps(State(knots, visited), s)
    {
      knots', visited' := StepRope(knots', visited');
    }
  }

  /** The body of the motion loop: move the head, then pull the rope and
      record its last knot once per unit of the magnitude. */
  method Move(knots: seq<Pos>, visited: set<Pos>, motion: Motion) returns (knots': seq<Pos>, visited': set<Pos>)
    requires |knots| > 0
    ensures State(knots', visited') == Apply(State(knots, visited), motion)
  {
    knots', visited' := PullTimes(knots[0 := Shift(knots[0], motion)], visited, Steps(motion.mag));
  }

  /** Reading one more line extends the motions read so far, or fails. */
  lemma ReadMotionsStep(lines: seq<string>, j: nat)
    requires j < |lines| && ReadMotions(lines[..j]).Some?
    ensures ParseMotion(lines[j]).None? ==> ReadMotions(lines).None?
    ensures ParseMotion(lines[j]).Some? ==>
      ReadMotions(lines[..j + 1]) == Some(ReadMotions(lines[..j]).value + [ParseMotion(lines[j]).value])
  {
    assert lines[..j + 1][..j] == lines[..j];
    if ParseMotion(lines[j]).None? {
      ReadMotionsMeaning(lines);
    }
  }

  /** The motion loop of the simulation, line by line. */
  method SimulateRope(input: string, n: nat) returns (r: Option<nat>)
    requires n >= 1
    ensures r == Simulate(input, n)
  {
    var lines := Lines(input);
    var visited: set<Pos> := {Origin};
    var knots := seq(n, _ => Origin);
    var j := 0;
    while j < |lines|
      invariant 0 <= j <= |lines| && |knots| == n
      invariant ReadMotions(lines[..j]).Some?
      invariant State(knots, visited) == Run(Start(n), ReadMotions(lines[..j]).value)
    {
      ReadMotionsStep(lines, j);
      var m := ParseMotion(lines[j]);
      if m.None? {
        return None;
      }
      ghost var ms := ReadMotions(lines[..j]).value;
      knots, visited := Move(knots, visited, m.value);
      assert (ms + [m.value])[..|ms|] == ms;
      j := j + 1;
    }
    assert lines[..j] == lines;
    return Some(|visited|);
  }

  // ---------------------------------------------------------------
  // Properties of the simulation

  /** Places once visited stay visited. */
  lemma {:induction false} SubStepsGrow(s: State, count: nat)
    requires |s.knots| > 0
    ensures s.visited <= SubSteps(s, count).visited
    ensures |SubSteps(s, count).visited| <= |s.visited| + count
    decreases count
  {
    if count > 0 {
      SubStepsGrow(s, count - 1);
      var before := SubSteps(s, count - 1);
      AddOne(before.visited, Last(Pull(before.knots)));
    }
  }

  lemma AddOne(v: set<Pos>, p: Pos)
    ensures |v + {p}| <= |v| + 1
  {
    if p in v {
      assert v + {p} == v;
    }
  }

  /** The total number of sub-steps of the motions. */
  function TotalSteps(ms: seq<Motion>): nat
    decreases |ms|
  {
    if |ms| == 0 then 0 else TotalSteps(ms[..|ms| - 1]) + Steps(ms[|ms| - 1].mag)
  }

  /** The origin is always counted, and each sub-step adds at most one
      place: the answer lies between 1 and one more than the sub-steps. */
  lemma {:induction false} RunBounds(ms: seq<Motion>, n: nat)
    requires n >= 1
    ensures Origin in Run(Start(n), ms).visited
    ensures 1 <= |Run(Start(n), ms).visited| <= 1 + TotalSteps(ms)
    decreases |ms|
  {
    if |ms| == 0 {
      assert Run(Start(n), ms).visited == {Origin};
    } else {
      var init := ms[..|ms| - 1];
      RunBounds(init, n);
      var s := Run(Start(n), init);
      var m := ms[|ms| - 1];
      SubStepsGrow(State(s.knots[0 := Shift(s.knots[0], m)], s.visited), Steps(m.mag));
    }
  }

  /** `part_one`: a rope of two knots. The answer, when the input reads,
      counts at least the origin and at most one place per sub-step more. */
  method PartOne(input: string) returns (r: Option<nat>)
    ensures r == Simulate(input, 2)
    ensures r.Some? ==> 1 <= r.value <= 1 + TotalSteps(ReadMotions(Lines(input)).value)
  {
    r := SimulateRope(input, 2);
    if r.Some? {
      RunBounds(ReadMotions(Lines(input)).value, 2);
    }
  }

  /** `part_two`: a rope of ten knots, with the same bounds. */
  method PartTwo(input: string) returns (r: Option<nat>)
    ensures r == Simulate(input, 10)
    ensures r.Some? ==> 1 <= r.value <= 1 + TotalSteps(ReadMotions(Lines(input)).value)
  {
    r := SimulateRope(input, 10);
    if r.Some? {
      RunBounds(ReadMotions(Lines(input)).value, 10);
    }
  }

  // ---------------------------------------------------------------
  // The `move_tail` tests

  /** The test cases where the tail already touches the head. */
  lemma MoveTailStaysSamples()
    ensures MoveTail((0, 0), (0, 0)) == ((0, 0), (0, 0))
    ensures MoveTail((5, 5), (5, 5)) == ((0, 0), (5, 5))
    ensures MoveTail((1, 1), (0, 0)) == ((0, 0), (0, 0))
    ensures MoveTail((6, 6), (5, 5)) == ((0, 0), (5, 5))
    ensures MoveTail((6, 5), (5, 5)) == ((0, 0), (5, 5))
    ensures MoveTail((0, 1), (0, 0)) == ((0, 0), (0, 0))
    ensures MoveTail((1, 0), (0, 0)) == ((0, 0), (0, 0))
    ensures MoveTail((0, -1), (0, 0)) == ((0, 0), (0, 0))
    ensures MoveTail((-1, 0), (0, 0)) == ((0, 0), (0, 0))
  {
  }

  /** The test cases where the head is two away along a row or column. */
  lemma MoveTailStraightSamples()
    ensures MoveTail((0, 2), (0, 0)) == ((0, 1), (0, 1))
    ensures MoveTail((0, -2), (0, 0)) == ((0, -1), (0, -1))
    ensures MoveTail((5, 7), (5, 5)) == ((0, 1), (5, 6))
    ensures MoveTail((5, 3), (5, 5)) == ((0, -1), (5, 4))
    ensures MoveTail((-3, -5), (-5, -5)) == ((1, 0), (-4, -5))
    ensures MoveTail((-7, -5), (-5, -5)) == ((-1, 0), (-6, -5))
  {
  }

  /** The test cases where the tail has to move diagonally. */
  lemma MoveTailDiagonalSamples()
    ensures MoveTail((12, 12), (10, 10)) == ((1, 1), (11, 11))
    ensures MoveTail((12, 11), (10, 10)) == ((1, 1), (11, 11))
    ensures MoveTail((8, 9), (10, 10)) == ((-1, -1), (9, 9))
  {
  }
}

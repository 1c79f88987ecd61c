/** Day 2 of 2021, "Dive!": a submarine follows a course of commands
    "forward n", "down n" and "up n"; first they move it directly, then
    "down" and "up" turn its aim and "forward" moves it along the aim. */
module Dive {
  import opened Wrappers
  import opened Strings

  datatype Direction = Forward(n: nat) | Up(n: nat) | Down(n: nat)

  datatype DirectionParseError = SplitError | ParseVariantError | ParseDistanceError

  /** `Direction::from_str`: split at the first space; the distance is
      read before the word is looked at. */
  function ParseDirection(s: string): Result<Direction, DirectionParseError>
  {
    match SplitOnce(s, " ")
    case None => Err(SplitError)
    case Some((word, num)) =>
      match ParseUSize(num)
      case None => Err(ParseDistanceError)
      case Some(n) =>
        if word == "forward" then Ok(Forward(n))
        else if word == "up" then Ok(Up(n))
        else if word == "down" then Ok(Down(n))
        else Err(ParseVariantError)
  }

  /** The command word of a direction. */
  function Word(d: Direction): string
  {
    match d
    case Forward(_) => "forward"
    case Up(_) => "up"
    case Down(_) => "down"
  }

  /** A direction written as a command. */
  function Show(d: Direction): string
  {
    Word(d) + " " + NatToString(d.n)
  }

  /** Every command written out reads back as itself. */
  lemma ParseShow(d: Direction)
    requires d.n < USizeLimit
    ensures ParseDirection(Show(d)) == Ok(d)
  {
    SplitOnceAt(Word(d), " ", NatToString(d.n));
    ParseNatToString(d.n);
  }

  /** The source's example: "forward 5" is `Forward(5)`. */
  lemma ParseExample()
    ensures ParseDirection("forward 5") == Ok(Forward(5))
  {
    assert NatToString(5) == "5";
    assert Show(Forward(5)) == "forward 5";
    ParseShow(Forward(5));
  }

  /** A line without a space is a `SplitError`. */
  lemma NoSpaceError(s: string)
    requires ' ' !in s
    ensures ParseDirection(s) == Err(SplitError)
  {
    SplitOnceNone(s, " ");
  }

  /** A distance that is not a `usize` is a `ParseDistanceError`, whatever
      the word. */
  lemma BadDistanceError(word: string, num: string)
    requires ' ' !in word && ParseUSize(num).None?
    ensures ParseDirection(word + " " + num) == Err(ParseDistanceError)
  {
    SplitOnceAt(word, " ", num);
  }

  /** A valid distance after an unknown word is a `ParseVariantError`. */
  lemma UnknownWordError(word: string, num: string)
    requires ' ' !in word && ParseUSize(num).Some?
    requires word != "forward" && word != "up" && word != "down"
    ensures ParseDirection(word + " " + num) == Err(ParseVariantError)
  {
    SplitOnceAt(word, " ", num);
  }

  /** The line reader's view of `from_str`: a direction, or nothing. */
  function ReadDirection(s: string): Option<Direction>
  {
    match ParseDirection(s)
    case Ok(d) => Some(d)
    case Err(_) => None
  }

  /** `input::get_lines_of_type::<Direction>`. */
  function ReadDirections(input: string): seq<Direction>
  {
    ParseEach(Lines(input), ReadDirection)
  }

  // ---------------------------------------------------------------
  // Part one: moving directly

  datatype Position = Position(h: int, depth: int)

  /** Where a course leads when commands move the submarine directly. */
  function Course(ds: seq<Direction>): (p: Position)
    ensures p.h >= 0
    decreases |ds|
  {
    if |ds| == 0 then Position(0, 0)
    else
      var p := Course(ds[..|ds| - 1]);
      match ds[|ds| - 1]
      case Forward(n) => Position(p.h + n, p.depth)
      case Down(n) => Position(p.h, p.depth + n)
      case Up(n) => Position(p.h, p.depth - n)
  }

  /** The distances of one kind of command, added up. */
  function Forwards(ds: seq<Direction>): nat
    decreases |ds|
  {
    if |ds| == 0 then 0 else Forwards(ds[1..]) + (if ds[0].Forward? then ds[0].n else 0)
  }

  function Downs(ds: seq<Direction>): nat
    decreases |ds|
  {
    if |ds| == 0 then 0 else Downs(ds[1..]) + (if ds[0].Down? then ds[0].n else 0)
  }

  function Ups(ds: seq<Direction>): nat
    decreases |ds|
  {
    if |ds| == 0 then 0 else Ups(ds[1..]) + (if ds[0].Up? then ds[0].n else 0)
  }

  /** The totals of a course and one more command. */
  lemma {:induction false} TotalsSnoc(ds: seq<Direction>, d: Direction)
    ensures Forwards(ds + [d]) == Forwards(ds) + (if d.Forward? then d.n else 0)
    ensures Downs(ds + [d]) == Downs(ds) + (if d.Down? then d.n else 0)
    ensures Ups(ds + [d]) == Ups(ds) + (if d.Up? then d.n else 0)
    decreases |ds|
  {
    if |ds| > 0 {
      assert (ds + [d])[1..] == ds[1..] + [d];
      TotalsSnoc(ds[1..], d);
    }
  }

  /** The horizontal position is the total forward distance, the depth
      the total down distance less the total up distance. */
  lemma {:induction false} CourseTotals(ds: seq<Direction>)
    ensures Course(ds) == Position(Forwards(ds), Downs(ds) - Ups(ds))
    decreases |ds|
  {
    if |ds| > 0 {
      var init := ds[..|ds| - 1];
      CourseTotals(init);
      TotalsSnoc(init, ds[|ds| - 1]);
      assert init + [ds[|ds| - 1]] == ds;
    }
  }

  /** The course never takes the submarine above the surface: the `usize`
      depth of the source never goes below zero. */
  predicate Safe(ds: seq<Direction>)
  {
    forall k :: 0 <= k <= |ds| ==> Course(ds[..k]).depth >= 0
  }

  /** `part_one`'s answer: horizontal position times depth. */
  function Answer1(ds: seq<Direction>): int
  {
    Course(ds).h * Course(ds).depth
  }

  /** The loop of `part_one`: `None` where the source's `usize` depth
      would go below zero and the subtraction panics. */
  method Steer(ds: seq<Direction>) returns (answer: Option<nat>)
    ensures answer.Some? <==> Safe(ds)
    ensures answer.Some? ==> answer.value == Answer1(ds)
  {
    var hposition: nat := 0;
    var depth: nat := 0;
    var i := 0;
    while i < |ds|
      invariant 0 <= i <= |ds|
      invariant Position(hposition, depth) == Course(ds[..i])
      invariant forall k :: 0 <= k <= i ==> Course(ds[..k]).depth >= 0
    {
      assert ds[..i + 1][..i] == ds[..i];
      match ds[i] {
        case Forward(n) => hposition := hposition + n;
        case Down(n) => depth := depth + n;
        case Up(n) =>
          if n > depth {
            assert Course(ds[..i + 1]).depth < 0;
            return None;
          }
          depth := depth - n;
      }
      i := i + 1;
    }
    assert ds[..i] == ds;
    answer := Some(hposition * depth);
  }

  /** `part_one`. */
  method PartOne(input: string) returns (answer: Option<nat>)
    ensures answer.Some? <==> Safe(ReadDirections(input))
    ensures answer.Some? ==> answer.value == Answer1(ReadDirections(input))
  {
    answer := Steer(ReadDirections(input));
  }

  // ---------------------------------------------------------------
  // Part two: steering by aim

  datatype Submarine = Submarine(h: int, depth: int, aim: int)

  /** Where a course leads when "down" and "up" turn the aim and
      "forward" moves along it. */
  function AimCourse(ds: seq<Direction>): Submarine
    decreases |ds|
  {
    if |ds| == 0 then Submarine(0, 0, 0)
    else
      var s := AimCourse(ds[..|ds| - 1]);
      match ds[|ds| - 1]
      case Forward(n) => Submarine(s.h + n, s.depth + s.aim * n, s.aim)
      case Down(n) => Submarine(s.h, s.depth, s.aim + n)
      case Up(n) => Submarine(s.h, s.depth, s.aim - n)
  }

  /** The aim never turns above level: the `usize` aim of the source never
      goes below zero. */
  predicate AimSafe(ds: seq<Direction>)
  {
    forall k :: 0 <= k <= |ds| ==> AimCourse(ds[..k]).aim >= 0
  }

  /** The aim follows exactly the depth of part one, and the horizontal
      position is the same. */
  lemma {:induction false} AimIsDepth(ds: seq<Direction>)
    ensures AimCourse(ds).h == Course(ds).h && AimCourse(ds).aim == Course(ds).depth
    decreases |ds|
  {
    if |ds| > 0 {
      AimIsDepth(ds[..|ds| - 1]);
    }
  }

  /** So a course is safe for one part exactly when it is for the other. */
  lemma SafeBoth(ds: seq<Direction>)
    ensures AimSafe(ds) <==> Safe(ds)
  {
    forall k | 0 <= k <= |ds| ensures AimCourse(ds[..k]).aim == Course(ds[..k]).depth {
      AimIsDepth(ds[..k]);
    }
  }

  /** "up 1" alone rises above the surface, so both parts panic on it. */
  lemma SurfacingPanics()
    ensures !Safe([Up(1)]) && !AimSafe([Up(1)])
  {
    assert [Up(1)][..1] == [Up(1)];
  }

  /** Each forward command's distance times part one's depth at that
      point, added up. */
  function Weighted(ds: seq<Direction>): int
    decreases |ds|
  {
    if |ds| == 0 then 0
    else
      var init := ds[..|ds| - 1];
      Weighted(init) + (if ds[|ds| - 1].Forward? then ds[|ds| - 1].n * Course(init).depth else 0)
  }

  /** Part two's depth is the sum, over forward moves, of the distance
      times the depth part one would have reached by then. */
  lemma {:induction false} AimDepthIsWeighted(ds: seq<Direction>)
    ensures AimCourse(ds).depth == Weighted(ds)
    decreases |ds|
  {
    if |ds| > 0 {
      var init := ds[..|ds| - 1];
      AimDepthIsWeighted(init);
      AimIsDepth(init);
    }
  }

  /** Along a safe course the depth of part two never decreases. */
  lemma {:induction false} AimDepthGrows(ds: seq<Direction>, k: nat)
    requires AimSafe(ds) && k <= |ds|
    ensures AimCourse(ds[..k]).depth <= AimCourse(ds).depth
    decreases |ds|
  {
    if k < |ds| {
      var init := ds[..|ds| - 1];
      assert forall j :: 0 <= j <= |init| ==> init[..j] == ds[..j];
      AimDepthGrows(init, k);
      assert init[..k] == ds[..k];
      assert ds[..|ds|] == ds && ds[..|ds| - 1] == init;
      assert AimCourse(init).aim >= 0;
    }
  }

  /** `part_two`'s answer: horizontal position times depth. */
  function Answer2(ds: seq<Direction>): int
  {
    AimCourse(ds).h * AimCourse(ds).depth
  }

  /** The loop of `part_two`: `None` where the source's `usize` aim would
      go below zero and the subtraction panics. */
  method SteerByAim(ds: seq<Direction>) returns (answer: Option<nat>)
    ensures answer.Some? <==> AimSafe(ds)
    ensures answer.Some? ==> answer.value == Answer2(ds)
  {
    var hposition: nat := 0;
    var depth: nat := 0;
    var aim: nat := 0;
    var i := 0;
    while i < |ds|
      invariant 0 <= i <= |ds|
      invariant Submarine(hposition, depth, aim) == AimCourse(ds[..i])
      invariant forall k :: 0 <= k <= i ==> AimCourse(ds[..k]).aim >= 0
    {
      assert ds[..i + 1][..i] == ds[..i];
      match ds[i] {
        case Forward(n) =>
          hposition := hposition + n;
          depth := depth + aim * n;
        case Down(n) => aim := aim + n;
        case Up(n) =>
          if n > aim {
            assert AimCourse(ds[..i + 1]).aim < 0;
            return None;
          }
          aim := aim - n;
      }
      i := i + 1;
    }
    assert ds[..i] == ds;
    answer := Some(hposition * depth);
  }

  /** `part_two`. */
  method PartTwo(input: string) returns (answer: Option<nat>)
    ensures answer.Some? <==> AimSafe(ReadDirections(input))
    ensures answer.Some? ==> answer.value == Answer2(ReadDirections(input))
  {
    answer := SteerByAim(ReadDirections(input));
  }

  // ---------------------------------------------------------------
  // The sample

  /** Each direction written as a command. */
  function ShowAll(ds: seq<Direction>): (r: seq<string>)
    ensures |r| == |ds| && forall k :: 0 <= k < |ds| ==> r[k] == Show(ds[k])
  {
    seq(|ds|, k requires 0 <= k < |ds| => Show(ds[k]))
  }

  lemma ShowLine(d: Direction)
    requires d.n < USizeLimit
    ensures '\n' !in Show(d) && ReadDirection(Show(d)) == Some(d)
  {
    ParseShow(d);
    var num := NatToString(d.n);
    assert forall c :: c in num ==> IsDigit(c);
  }

  /** A course written one command a line reads back as itself. */
  lemma ReadWritten(ds: seq<Direction>)
    requires |ds| > 0 && forall k :: 0 <= k < |ds| ==> ds[k].n < USizeLimit
    ensures ReadDirections(Join(ShowAll(ds), "\n")) == ds
  {
    var ls := ShowAll(ds);
    forall k | 0 <= k < |ls| ensures '\n' !in ls[k] && ReadDirection(ls[k]) == Some(ds[k]) {
      ShowLine(ds[k]);
    }
    LinesOfJoin(ls);
    ParseEachAll(ls, ReadDirection);
  }

  const SampleCourse: seq<Direction> := [Forward(5), Down(5), Forward(8), Up(3), Down(8), Forward(2)]

  /** "forward 5\ndown 5\nforward 8\nup 3\ndown 8\nforward 2". */
  const Sample: string := Join(ShowAll(SampleCourse), "\n")

  /** The sample stays below the surface, and gives 150 and 900. */
  lemma SampleAnswers()
    ensures Safe(ReadDirections(Sample)) && Answer1(ReadDirections(Sample)) == 150
    ensures AimSafe(ReadDirections(Sample)) && Answer2(ReadDirections(Sample)) == 900
  {
    ReadWritten(SampleCourse);
    SampleCourseSafe();
    SafeBoth(SampleCourse);
  }

  lemma SampleCourseSafe()
    ensures Safe(SampleCourse) && Answer1(SampleCourse) == 150 && Answer2(SampleCourse) == 900
  {
    var ds := SampleCourse;
    assert ds[..0] == [] && ds[..6] == ds;
    forall k | 1 <= k <= 6 ensures ds[..k][..k - 1] == ds[..k - 1] && ds[..k][k - 1] == ds[k - 1] {
    }
    assert Course(ds[..1]) == Position(5, 0) && AimCourse(ds[..1]) == Submarine(5, 0, 0);
    assert Course(ds[..2]) == Position(5, 5) && AimCourse(ds[..2]) == Submarine(5, 0, 5);
    assert Course(ds[..3]) == Position(13, 5) && AimCourse(ds[..3]) == Submarine(13, 40, 5);
    assert Course(ds[..4]) == Position(13, 2) && AimCourse(ds[..4]) == Submarine(13, 40, 2);
    assert Course(ds[..5]) == Position(13, 10) && AimCourse(ds[..5]) == Submarine(13, 40, 10);
    assert Course(ds) == Position(15, 10) && AimCourse(ds) == Submarine(15, 60, 10);
    forall k | 0 <= k <= |ds| ensures Course(ds[..k]).depth >= 0 {
      assert k == 0 || k == 1 || k == 2 || k == 3 || k == 4 || k == 5 || k == 6;
    }
  }
}

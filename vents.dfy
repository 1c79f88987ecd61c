/** Day 5 of 2021, "Hydrothermal Venture": lines of vents on a grid, drawn
    point by point into a map of visit counts; the answer is the number of
    points that more than one line passes through. */
module Vents {
  import opened Wrappers
  import opened Strings

  /** `Point`; the derived ordering compares `x` first, then `y`. */
  datatype Point = Point(x: int, y: int)

  predicate Less(a: Point, b: Point)
  {
    a.x < b.x || (a.x == b.x && a.y < b.y)
  }

  /** The derived ordering is a strict total order. */
  lemma LessOrder(a: Point, b: Point, c: Point)
    ensures !Less(a, a)
    ensures Less(a, b) && Less(b, c) ==> Less(a, c)
    ensures a != b <==> Less(a, b) || Less(b, a)
    ensures !(Less(a, b) && Less(b, a))
  {
  }

  /** `Point::from_str`: the trimmed text split at commas must give exactly
      two pieces, each an `i32` once trimmed. Where the source panics (one
      piece, a third piece, a piece that is not a number) this is `None`. */
  function ParsePoint(s: string): (r: Option<Point>)
    ensures r.Some? ==> I32Min <= r.value.x < I32Limit && I32Min <= r.value.y < I32Limit
  {
    PointOfPieces(SplitOn(Trim(s), ","))
  }

  /** The pieces of a point: exactly two, each an `i32` once trimmed. */
  function PointOfPieces(parts: seq<string>): (r: Option<Point>)
    ensures r.Some? ==> I32Min <= r.value.x < I32Limit && I32Min <= r.value.y < I32Limit
  {
    if |parts| != 2 then None
    else
      match ParseI32(Trim(parts[0]))
      case None => None
      case Some(x) =>
        match ParseI32(Trim(parts[1]))
        case None => None
        case Some(y) => Some(Point(x, y))
  }

  /** `Line`: from `src` to `dst`, both ends included. */
  datatype Line = Line(src: Point, dst: Point)

  /** `Line::from_str`: exactly two points separated by "->". */
  function ParseLine(s: string): (r: Option<Line>)
  {
    var parts := SplitOn(s, "->");
    if |parts| != 2 then None
    else
      match ParsePoint(parts[0])
      case None => None
      case Some(src) =>
        match ParsePoint(parts[1])
        case None => None
        case Some(dst) => Some(Line(src, dst))
  }

  /** Reading a line with the wrong number of arrows fails. */
  lemma ParseLineArrows(s: string)
    requires |SplitOn(s, "->")| != 2
    ensures ParseLine(s) == None
  {
  }

  /** Reading a point with the wrong number of commas fails. */
  lemma ParsePointCommas(s: string)
    requires |SplitOn(Trim(s), ",")| != 2
    ensures ParsePoint(s) == None
  {
  }

  // ---------------------------------------------------------------
  // Rasterising a line

  function Abs(x: int): nat { if x < 0 then -x else x }

  function Sign(x: int): int { if x > 0 then 1 else if x < 0 then -1 else 0 }

  /** `max_distance`: the larger of the two coordinate distances. */
  function Span(l: Line): nat
  {
    var dx, dy := Abs(l.dst.x - l.src.x), Abs(l.dst.y - l.src.y);
    if dx > dy then dx else dy
  }

  /** The point `i` steps of `(x_inc, y_inc)` from `src`. */
  function Along(l: Line, i: int): Point
  {
    Point(l.src.x + i * Sign(l.dst.x - l.src.x), l.src.y + i * Sign(l.dst.y - l.src.y))
  }

  /** `get_points`: `src`, then the points one to `max_distance - 1` steps
      along, then `dst`. A line of one point underflows `max_distance - 1`
      in the source, so it is excluded. */
  function Points(l: Line): (r: seq<Point>)
    requires l.src != l.dst
    ensures |r| == Span(l) + 1
    ensures r[0] == l.src && r[|r| - 1] == l.dst
    ensures forall i :: 0 < i < |r| - 1 ==> r[i] == Along(l, i)
  {
    [l.src] + seq(Span(l) - 1, i => Along(l, i + 1)) + [l.dst]
  }

  /** Horizontal, vertical or at 45 degrees. */
  predicate Straight(l: Line)
  {
    l.src.x == l.dst.x || l.src.y == l.dst.y || Abs(l.dst.x - l.src.x) == Abs(l.dst.y - l.src.y)
  }

  /** On a straight line the last step also lands on `dst`, so every point
      is `i` steps along and consecutive points differ by
      `(sign(dx), sign(dy))`. */
  lemma StraightPoints(l: Line)
    requires l.src != l.dst && Straight(l)
    ensures forall i :: 0 <= i < |Points(l)| ==> Points(l)[i] == Along(l, i)
    ensures forall i :: 0 < i < |Points(l)| ==>
      Points(l)[i].x - Points(l)[i - 1].x == Sign(l.dst.x - l.src.x) &&
      Points(l)[i].y - Points(l)[i - 1].y == Sign(l.dst.y - l.src.y)
  {
    var n := Span(l);
    assert Along(l, n) == l.dst by {
      assert n * Sign(l.dst.x - l.src.x) == l.dst.x - l.src.x;
      assert n * Sign(l.dst.y - l.src.y) == l.dst.y - l.src.y;
    }
    forall i | 0 < i < |Points(l)|
      ensures Points(l)[i].x - Points(l)[i - 1].x == Sign(l.dst.x - l.src.x)
      ensures Points(l)[i].y - Points(l)[i - 1].y == Sign(l.dst.y - l.src.y)
    {
      assert Points(l)[i] == Along(l, i) && Points(l)[i - 1] == Along(l, i - 1);
      AlongStep(l, i - 1);
    }
  }

  lemma AlongStep(l: Line, i: int)
    ensures Along(l, i + 1).x == Along(l, i).x + Sign(l.dst.x - l.src.x)
    ensures Along(l, i + 1).y == Along(l, i).y + Sign(l.dst.y - l.src.y)
  {
  }

  /** Different numbers of steps along a line of more than one point land
      on different points. */
  lemma AlongDistinct(l: Line, i: int, j: int)
    requires i < j && l.src != l.dst
    ensures Along(l, i) != Along(l, j)
  {
    var sx, sy := Sign(l.dst.x - l.src.x), Sign(l.dst.y - l.src.y);
    if sx == 1 {
      assert Along(l, j).x - Along(l, i).x == j - i;
    } else if sx == -1 {
      assert Along(l, i).x - Along(l, j).x == j - i;
    } else if sy == 1 {
      assert Along(l, j).y - Along(l, i).y == j - i;
    } else {
      assert sy == -1;
      assert Along(l, i).y - Along(l, j).y == j - i;
    }
  }

  /** A straight line passes through no point twice. */
  lemma StraightDistinct(l: Line)
    requires l.src != l.dst && Straight(l)
    ensures forall i, j :: 0 <= i < j < |Points(l)| ==> Points(l)[i] != Points(l)[j]
  {
    StraightPoints(l);
    forall i, j | 0 <= i < j < |Points(l)| ensures Points(l)[i] != Points(l)[j] {
      AlongDistinct(l, i, j);
    }
  }

  /** The loop of `get_points`, pushing onto `points`. */
  method GetPoints(l: Line) returns (points: seq<Point>)
    requires l.src != l.dst
    ensures points == Points(l)
  {
    points := [l.src];
    var xInc := 0;
    if l.dst.x > l.src.x {
      xInc := 1;
    } else if l.dst.x < l.src.x {
      xInc := -1;
    }
    var yInc := 0;
    if l.dst.y > l.src.y {
      yInc := 1;
    } else if l.dst.y < l.src.y {
      yInc := -1;
    }
    var maxDistance := Span(l);
    var x, y := l.src.x + xInc, l.src.y + yInc;
    var i := 0;
    while i < maxDistance - 1
      invariant 0 <= i <= maxDistance - 1
      invariant Point(x, y) == Along(l, i + 1)
      invariant points == [l.src] + seq(i, k => Along(l, k + 1))
    {
      points := points + [Point(x, y)];
      AlongStep(l, i + 1);
      x, y := x + xInc, y + yInc;
      i := i + 1;
    }
    points := points + [l.dst];
  }

  // ---------------------------------------------------------------
  // Counting overlaps

  /** With `ignore_diagonal`, only horizontal and vertical lines are drawn. */
  predicate Drawn(l: Line, ignoreDiagonal: bool)
  {
    !ignoreDiagonal || l.src.x == l.dst.x || l.src.y == l.dst.y
  }

  /** Every drawn line has two distinct ends (a one-point line panics). */
  predicate Drawable(lines: seq<Line>, ignoreDiagonal: bool)
  {
    forall k :: 0 <= k < |lines| && Drawn(lines[k], ignoreDiagonal) ==> lines[k].src != lines[k].dst
  }

  /** All the points drawn, each as often as a line passes through it. */
  function Visits(lines: seq<Line>, ignoreDiagonal: bool): multiset<Point>
    requires Drawable(lines, ignoreDiagonal)
    decreases |lines|
  {
    if |lines| == 0 then multiset{}
    else
      var l := lines[|lines| - 1];
      Visits(lines[..|lines| - 1], ignoreDiagonal) + if Drawn(l, ignoreDiagonal) then multiset(Points(l)) else multiset{}
  }

  /** The points visited more than once. */
  function Overlapping(v: multiset<Point>): set<Point>
  {
    set p | p in v && v[p] > 1
  }

  /** The visit-count map holds exactly the multiplicities of `v`. */
  ghost predicate Tally(counts: map<Point, nat>, v: multiset<Point>)
  {
    (forall p :: p in counts <==> p in v) && (forall p :: p in counts ==> counts[p] == v[p])
  }

  /** `*visit_counts.entry(point).or_insert(0) += 1`. */
  function Increment(counts: map<Point, nat>, p: Point): (r: map<Point, nat>)
    ensures r.Keys == counts.Keys + {p}
    ensures r[p] == (if p in counts then counts[p] else 0) + 1
    ensures forall q :: q in counts && q != p ==> r[q] == counts[q]
  {
    counts[p := if p in counts then counts[p] + 1 else 1]
  }

  /** Incrementing a point's entry tallies one more visit of it. */
  lemma TallyStep(counts: map<Point, nat>, v: multiset<Point>, p: Point)
    requires Tally(counts, v)
    ensures Tally(Increment(counts, p), v + multiset{p})
  {
  }

  /** Drawing a line adds its points, once each per occurrence. */
  method Draw(counts: map<Point, nat>, points: seq<Point>, ghost v: multiset<Point>) returns (counts': map<Point, nat>)
    requires Tally(counts, v)
    ensures Tally(counts', v + multiset(points))
  {
    counts' := counts;
    for k := 0 to |points|
      invariant Tally(counts', v + multiset(points[..k]))
    {
      TallyStep(counts', v + multiset(points[..k]), points[k]);
      assert points[..k + 1] == points[..k] + [points[k]];
      counts' := Increment(counts', points[k]);
    }
    assert points[..|points|] == points;
  }

  /** The keys among `keys` whose count is above one. */
  function AboveOne(counts: map<Point, nat>, keys: set<Point>): set<Point>
  {
    set p | p in keys && p in counts && counts[p] > 1
  }

  lemma AboveOneStep(counts: map<Point, nat>, keys: set<Point>, p: Point)
    requires p in counts && p !in keys
    ensures |AboveOne(counts, keys + {p})| == |AboveOne(counts, keys)| + if counts[p] > 1 then 1 else 0
  {
    if counts[p] > 1 {
      assert AboveOne(counts, keys + {p}) == AboveOne(counts, keys) + {p};
    } else {
      assert AboveOne(counts, keys + {p}) == AboveOne(counts, keys);
    }
  }

  /** The second loop: count the entries above 1. */
  method CountAboveOne(counts: map<Point, nat>) returns (n: nat)
    ensures n == |AboveOne(counts, counts.Keys)|
  {
    n := 0;
    var todo := counts.Keys;
    ghost var done: set<Point> := {};
    while todo != {}
      invariant todo + done == counts.Keys && todo !! done
      invariant n == |AboveOne(counts, done)|
      decreases |todo|
    {
      var p :| p in todo;
      AboveOneStep(counts, done, p);
      if counts[p] > 1 {
        n := n + 1;
      }
      todo, done := todo - {p}, done + {p};
    }
  }

  /** `get_lines_of_type::<Line>`: `Line::from_str` panics rather than
      failing, so one bad line makes the whole reading `None`. */
  function ReadLines(input: string): Option<seq<Line>>
  {
    ReadEvery(Lines(input), ParseLine)
  }

  /** `count_points_visited_more_than_once`; `None` where the source
      panics: a line that does not parse, or a drawn line of one point. */
  function CountOverlaps(input: string, ignoreDiagonal: bool): Option<nat>
  {
    match ReadLines(input)
    case None => None
    case Some(ls) =>
      if Drawable(ls, ignoreDiagonal) then Some(|Overlapping(Visits(ls, ignoreDiagonal))|) else None
  }

  /** The prefix of a drawable list is drawable and its visits grow by the
      next line's points. */
  lemma VisitsSnoc(lines: seq<Line>, j: nat, ignoreDiagonal: bool)
    requires j < |lines| && Drawable(lines[..j], ignoreDiagonal)
    requires Drawn(lines[j], ignoreDiagonal) ==> lines[j].src != lines[j].dst
    ensures Drawable(lines[..j + 1], ignoreDiagonal)
    ensures Visits(lines[..j + 1], ignoreDiagonal) ==
      Visits(lines[..j], ignoreDiagonal) + if Drawn(lines[j], ignoreDiagonal) then multiset(Points(lines[j])) else multiset{}
  {
    assert lines[..j + 1][..j] == lines[..j];
  }

  /** The state of the first loop after `j` lines. */
  ghost predicate DrawnSoFar(counts: map<Point, nat>, lines: seq<Line>, j: nat, ignoreDiagonal: bool)
  {
    j <= |lines| && Drawable(lines[..j], ignoreDiagonal) && Tally(counts, Visits(lines[..j], ignoreDiagonal))
  }

  lemma DrawStep(counts: map<Point, nat>, counts': map<Point, nat>, lines: seq<Line>, j: nat, ignoreDiagonal: bool)
    requires DrawnSoFar(counts, lines, j, ignoreDiagonal) && j < |lines|
    requires Drawn(lines[j], ignoreDiagonal) ==> lines[j].src != lines[j].dst
    requires Drawn(lines[j], ignoreDiagonal) ==>
      Tally(counts', Visits(lines[..j], ignoreDiagonal) + multiset(Points(lines[j])))
    requires !Drawn(lines[j], ignoreDiagonal) ==> counts' == counts
    ensures DrawnSoFar(counts', lines, j + 1, ignoreDiagonal)
  {
    VisitsSnoc(lines, j, ignoreDiagonal);
  }

  lemma DrawStart(lines: seq<Line>, ignoreDiagonal: bool)
    ensures DrawnSoFar(map[], lines, 0, ignoreDiagonal)
  {
    assert lines[..0] == [];
  }

  lemma DrawEnd(counts: map<Point, nat>, lines: seq<Line>, ignoreDiagonal: bool)
    requires DrawnSoFar(counts, lines, |lines|, ignoreDiagonal)
    ensures Drawable(lines, ignoreDiagonal) && Tally(counts, Visits(lines, ignoreDiagonal))
  {
    assert lines[..|lines|] == lines;
  }

  /** A drawn line of one point makes the whole list undrawable. */
  lemma DrawPanics(lines: seq<Line>, j: nat, ignoreDiagonal: bool)
    requires j < |lines| && Drawn(lines[j], ignoreDiagonal) && lines[j].src == lines[j].dst
    ensures !Drawable(lines, ignoreDiagonal)
  {
  }

  /** The body of the first loop, for a line that does not panic. */
  method DrawLine(counts: map<Point, nat>, line: Line, ignoreDiagonal: bool, ghost v: multiset<Point>)
    returns (counts': map<Point, nat>)
    requires Tally(counts, v)
    requires Drawn(line, ignoreDiagonal) ==> line.src != line.dst
    ensures Drawn(line, ignoreDiagonal) ==> Tally(counts', v + multiset(Points(line)))
    ensures !Drawn(line, ignoreDiagonal) ==> counts' == counts
  {
    counts' := counts;
    if Drawn(line, ignoreDiagonal) {
      var points := GetPoints(line);
      counts' := Draw(counts, points, v);
    }
  }

  /** The first loop: draw every line that counts into the map, or stop
      at a drawn line of one point. */
  method DrawAll(lines: seq<Line>, ignoreDiagonal: bool) returns (counts: map<Point, nat>, ok: bool)
    ensures ok == Drawable(lines, ignoreDiagonal)
    ensures ok ==> Tally(counts, Visits(lines, ignoreDiagonal))
  {
    counts := map[];
    DrawStart(lines, ignoreDiagonal);
    var j := 0;
    while j < |lines|
      invariant DrawnSoFar(counts, lines, j, ignoreDiagonal)
    {
      if Drawn(lines[j], ignoreDiagonal) && lines[j].src == lines[j].dst {
        DrawPanics(lines, j, ignoreDiagonal);
        return counts, false;
      }
      ghost var before := counts;
      counts := DrawLine(counts, lines[j], ignoreDiagonal, Visits(lines[..j], ignoreDiagonal));
      DrawStep(before, counts, lines, j, ignoreDiagonal);
      j := j + 1;
    }
    DrawEnd(counts, lines, ignoreDiagonal);
    return counts, true;
  }

  /** The entries above one are the points visited more than once. */
  lemma TallyOverlapping(counts: map<Point, nat>, v: multiset<Point>)
    requires Tally(counts, v)
    ensures AboveOne(counts, counts.Keys) == Overlapping(v)
  {
  }

  /** The whole computation: read, draw, then count the entries above one. */
  method CountPointsVisitedMoreThanOnce(input: string, ignoreDiagonal: bool) returns (r: Option<nat>)
    ensures r == CountOverlaps(input, ignoreDiagonal)
  {
    var read := ReadLines(input);
    if read.None? {
      return None;
    }
    var counts, ok := DrawAll(read.value, ignoreDiagonal);
    if !ok {
      return None;
    }
    var n := CountAboveOne(counts);
    TallyOverlapping(counts, Visits(read.value, ignoreDiagonal));
    return Some(n);
  }

  /** `part_one`: horizontal and vertical lines only. */
  method PartOne(input: string) returns (r: Option<nat>)
    ensures r == CountOverlaps(input, true)
  {
    r := CountPointsVisitedMoreThanOnce(input, true);
  }

  /** `part_two`: every line. */
  method PartTwo(input: string) returns (r: Option<nat>)
    ensures r == CountOverlaps(input, false)
  {
    r := CountPointsVisitedMoreThanOnce(input, false);
  }

  // ---------------------------------------------------------------
  // Part two only adds lines

  /** Every line part one draws, part two draws too, so part two sees
      at least the visits of part one. */
  lemma {:induction false} VisitsGrow(lines: seq<Line>)
    requires Drawable(lines, false)
    ensures Drawable(lines, true)
    ensures Visits(lines, true) <= Visits(lines, false)
    decreases |lines|
  {
    if |lines| > 0 {
      var init := lines[..|lines| - 1];
      assert Drawable(init, false) by {
        forall k | 0 <= k < |init| && Drawn(init[k], false) ensures init[k].src != init[k].dst {
          assert init[k] == lines[k];
        }
      }
      VisitsGrow(init);
    }
  }

  lemma SubsetSize(a: set<Point>, b: set<Point>)
    requires a <= b
    ensures |a| <= |b|
  {
    assert b == a + (b - a);
  }

  /** Whenever part two has an answer, so does part one, and part two's is
      at least as large. */
  lemma PartTwoAtLeastPartOne(input: string)
    requires CountOverlaps(input, false).Some?
    ensures CountOverlaps(input, true).Some?
    ensures CountOverlaps(input, true).value <= CountOverlaps(input, false).value
  {
    var ls := ReadLines(input).value;
    VisitsGrow(ls);
    var small, big := Visits(ls, true), Visits(ls, false);
    assert Overlapping(small) <= Overlapping(big) by {
      forall p | p in Overlapping(small) ensures p in Overlapping(big) {
        assert small[p] <= big[p];
      }
    }
    SubsetSize(Overlapping(small), Overlapping(big));
  }

  /** Part one draws exactly the horizontal and vertical lines. */
  lemma PartOneAxisOnly(l: Line)
    ensures Drawn(l, true) <==> l.src.x == l.dst.x || l.src.y == l.dst.y
    ensures Drawn(l, false)
  {
  }

  // ---------------------------------------------------------------
  // The tests of `types.rs`

  /** Text that trims to two comma-free pieces around one comma splits
      into those pieces. */
  lemma PointPieces(s: string, a: string, b: string)
    requires Trim(s) == a + "," + b && ',' !in a && ',' !in b
    ensures SplitOn(Trim(s), ",") == [a, b]
  {
    SplitOnSep(a, ",", b);
    SplitOnSep(b, ",", "");
  }

  /** A point as the puzzle input writes it. */
  function PointText(p: Point): string
  {
    IntText(p.x) + "," + IntText(p.y)
  }

  /** A line as the puzzle input writes it. */
  function LineText(l: Line): string
  {
    PointText(l.src) + " -> " + PointText(l.dst)
  }

  /** Text with no comma or '>' and no whitespace at either end. */
  predicate Plain(t: string)
  {
    ',' !in t && '>' !in t && |t| > 0 && !IsSpace(t[0]) && !IsSpace(t[|t| - 1])
  }

  /** A written number is plain. */
  lemma PlainNumber(t: string)
    requires |t| > 0 && (t[0] == '-' || IsDigit(t[0])) && IsDigit(t[|t| - 1])
    requires forall i :: 0 < i < |t| ==> IsDigit(t[i])
    ensures Plain(t)
  {
  }

  /** Plain text trims to itself. */
  lemma TrimPlain(t: string)
    requires Plain(t)
    ensures Trim(t) == t
  {
    TrimIdentity(t);
  }

  lemma PiecesRead(a: string, b: string, x: int, y: int)
    requires Trim(a) == a && Trim(b) == b && ParseI32(a) == Some(x) && ParseI32(b) == Some(y)
    ensures PointOfPieces([a, b]) == Some(Point(x, y))
  {
  }

  /** What the point reader needs of a written coordinate. */
  lemma IntTextReads(n: int)
    requires I32Min <= n < I32Limit
    ensures ParseI32(IntText(n)) == Some(n) && Plain(IntText(n)) && Trim(IntText(n)) == IntText(n)
  {
    ParseI32Text(n);
    PlainNumber(IntText(n));
    TrimPlain(IntText(n));
  }

  /** A written point, perhaps padded with whitespace, reads back. */
  lemma ParsePointPadded(s: string, x: int, y: int)
    requires I32Min <= x < I32Limit && I32Min <= y < I32Limit
    requires Trim(s) == IntText(x) + "," + IntText(y)
    ensures ParsePoint(s) == Some(Point(x, y))
  {
    IntTextReads(x);
    IntTextReads(y);
    PointPieces(s, IntText(x), IntText(y));
    PiecesRead(IntText(x), IntText(y), x, y);
  }

  /** A written point within the 32-bit range reads back. */
  lemma ParsePointText(x: int, y: int)
    requires I32Min <= x < I32Limit && I32Min <= y < I32Limit
    ensures ParsePoint(PointText(Point(x, y))) == Some(Point(x, y))
  {
    IntTextReads(x);
    IntTextReads(y);
    TrimIdentity(PointText(Point(x, y)));
    ParsePointPadded(PointText(Point(x, y)), x, y);
  }

  /** Text without a '>' holds no arrow, even one running into an arrow
      written after it. */
  lemma NoArrow(a: string)
    requires '>' !in a
    ensures Clean(a, "->")
  {
    forall j | 0 <= j < |a| ensures !MatchesAt(a + "->", "->", j) {
      var t := a + "->";
      if j + 1 < |a| {
        assert t[j + 1] == a[j + 1] != '>';
      } else {
        assert t[j + 1] == '-';
      }
    }
  }

  /** Two written points around an arrow split into the padded points. */
  lemma LineSplits(a: string, b: string)
    requires '>' !in a && '>' !in b
    ensures SplitOn(a + " -> " + b, "->") == [a + " ", " " + b]
  {
    assert a + " -> " + b == (a + " ") + "->" + (" " + b);
    NoArrow(a + " ");
    NoArrow(" " + b);
    SplitOnClean(a + " ", "->", " " + b);
    SplitOnCleanLast(" " + b, "->");
  }

  /** Two point texts around `" -> "` read as the line between them. */
  lemma ParseLineOf(a: string, b: string, src: Point, dst: Point)
    requires '>' !in a && '>' !in b
    requires |a| > 0 && !IsSpace(a[0]) && !IsSpace(a[|a| - 1])
    requires |b| > 0 && !IsSpace(b[0]) && !IsSpace(b[|b| - 1])
    requires ParsePoint(a) == Some(src) && ParsePoint(b) == Some(dst)
    ensures ParseLine(a + " -> " + b) == Some(Line(src, dst))
  {
    LineSplits(a, b);
    TrimIdentity(a);
    TrimIdentity(b);
    TrimPadded(a);
    TrimPadded(b);
    assert ParsePoint(a + " ") == ParsePoint(a);
    assert ParsePoint(" " + b) == ParsePoint(b);
  }

  /** A written point has no '>' and no whitespace at its ends. */
  lemma PointTextPlain(x: int, y: int)
    ensures var t := PointText(Point(x, y));
      '>' !in t && |t| > 0 && !IsSpace(t[0]) && !IsSpace(t[|t| - 1])
  {
    PlainNumber(IntText(x));
    PlainNumber(IntText(y));
    JoinedPlain(IntText(x), IntText(y));
  }

  lemma JoinedPlain(a: string, b: string)
    requires Plain(a) && Plain(b)
    ensures var t := a + "," + b;
      '>' !in t && |t| > 0 && !IsSpace(t[0]) && !IsSpace(t[|t| - 1])
  {
  }

  /** A written line within the 32-bit range reads back. */
  lemma ParseLineText(x1: int, y1: int, x2: int, y2: int)
    requires I32Min <= x1 < I32Limit && I32Min <= y1 < I32Limit
    requires I32Min <= x2 < I32Limit && I32Min <= y2 < I32Limit
    ensures ParseLine(LineText(Line(Point(x1, y1), Point(x2, y2)))) == Some(Line(Point(x1, y1), Point(x2, y2)))
  {
    PointTextPlain(x1, y1);
    PointTextPlain(x2, y2);
    ParsePointText(x1, y1);
    ParsePointText(x2, y2);
    ParseLineOf(PointText(Point(x1, y1)), PointText(Point(x2, y2)), Point(x1, y1), Point(x2, y2));
  }

  lemma GetPointsSample()
    ensures Points(Line(Point(1, 2), Point(1, 5))) == [Point(1, 2), Point(1, 3), Point(1, 4), Point(1, 5)]
  {
  }
}

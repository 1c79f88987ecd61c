/** Day 15 of 2022, "Beacon Exclusion Zone": sensors that each know the
    Manhattan distance to their closest beacon, the slice of a sensor's
    diamond on one row as a closed interval, and a set of closed integer
    intervals that merges overlapping ones as they are added. */
module Beacons {
  import opened Wrappers

  type Point = (int, int)

  function Abs(n: int): nat { if n < 0 then -n else n }

  function Min(a: int, b: int): int { if a <= b then a else b }

  function Max(a: int, b: int): int { if a <= b then b else a }

  /** Manhattan distance: `abs_diff` on each axis, summed. */
  function Dist(p: Point, q: Point): nat { Abs(p.0 - q.0) + Abs(p.1 - q.1) }

  /** A sensor at (x, y) whose closest beacon is at (beaconX, beaconY). */
  datatype Sensor = Sensor(x: int, y: int, beaconX: int, beaconY: int) {
    /** `mdist`: how far the sensor sees. */
    function MDist(): nat { Dist((x, y), (beaconX, beaconY)) }

    /** `contains`: the point lies in the sensor's diamond. */
    predicate Contains(p: Point) { Dist((x, y), p) <= MDist() }

    /** The point lies just outside the sensor's diamond. */
    predicate OnBoundary(p: Point) { Dist((x, y), p) == MDist() + 1 }
  }

  /** The sensor and its beacon lie in the diamond, and the sensor's values
      from the source's own examples. */
  lemma SensorExamples()
    ensures forall s: Sensor :: s.Contains((s.x, s.y)) && s.Contains((s.beaconX, s.beaconY))
    ensures Sensor(2, 18, -2, 15).MDist() == 7
    ensures var s := Sensor(0, 0, 0, 2);
      s.Contains((0, 2)) && s.Contains((0, 0)) && s.Contains((-1, -1)) && !s.Contains((0, 3)) && !s.Contains((-1, -3))
  {
  }

  /** `outside_points`: walking the rows from y - (mdist + 1) to
      y + (mdist + 1), the one or two points of each row just outside the
      diamond. */
  method OutsidePoints(s: Sensor) returns (res: seq<Point>)
    ensures |res| == 4 * (s.MDist() + 1)
    ensures forall p :: p in res <==> s.OnBoundary(p)
    ensures forall p :: p in res ==> !s.Contains(p)
  {
    res := [];
    var m := s.MDist() + 1;
    var row := s.y - m;
    while row <= s.y + m
      invariant s.y - m <= row <= s.y + m + 1
      invariant |res| == 2 * (row - (s.y - m)) - (if row > s.y - m then 1 else 0) - (if row > s.y + m then 1 else 0)
      invariant forall p: Point :: p in res ==> p.1 < row && s.OnBoundary(p)
      invariant forall p: Point :: p.1 < row && s.OnBoundary(p) ==> p in res
    {
      var h := m - Abs(s.y - row);
      if h == 0 {
        res := res + [(s.x, row)];
      } else {
        res := res + [(s.x - h, row), (s.x + h, row)];
      }
      row := row + 1;
    }
  }

  /** `find_no_beacon_range`: the slice of the sensor's diamond on `row`,
      as a closed interval, or `None` when the row misses the diamond. */
  function FindNoBeaconRange(s: Sensor, row: int): (r: Option<(int, int)>)
    ensures r.None? <==> forall x :: !s.Contains((x, row))
    ensures r.Some? ==> r.value.0 <= r.value.1
    ensures r.Some? ==> forall x :: r.value.0 <= x <= r.value.1 <==> s.Contains((x, row))
  {
    var mdist := s.MDist();
    var vdist := Abs(s.y - row);
    if vdist > mdist then None
    else
      var h := mdist - vdist;
      assert s.Contains((s.x, row));
      Some((s.x - h, s.x + h))
  }

  /** The source's examples: a sensor at (5, 9) seeing 5 far, on rows 6
      down to 3: (3, 7), (4, 6), (5, 5), then nothing. */
  lemma NoBeaconRangeExamples(row: int)
    requires 3 <= row <= 6
    ensures FindNoBeaconRange(Sensor(5, 9, 10, 9), row) == if row == 3 then None else Some((9 - row, row + 1))
  {
  }

  /** A closed interval of integers. */
  datatype IRange = IRange(left: int, right: int) {
    predicate WellFormed() { left <= right }

    predicate Contains(n: int) { left <= n <= right }

    /** `overlaps`, case by case as the source tests it. */
    predicate Overlaps(o: IRange) {
      if o.left <= left && o.right >= right then true
      else if o.left >= left && o.left <= right then true
      else if o.right >= left && o.right <= right then true
      else false
    }

    /** `a + o`: the hull of two overlapping intervals; `a` itself when
        they are apart. */
    function Add(o: IRange): (r: IRange)
      ensures !Overlaps(o) ==> r == this
      ensures WellFormed() && o.WellFormed() && Overlaps(o) ==> r == IRange(Min(left, o.left), Max(right, o.right))
    {
      if o.left > right then this
      else if o.right < left then this
      else if o.left <= left && o.right >= right then IRange(o.left, o.right)
      else if o.left >= left && o.right <= right then this
      else if o.left >= left then IRange(left, o.right)
      else if o.right <= right then IRange(o.left, right)
      else assert false; this
    }
  }

  /** For intervals that are not empty, `overlaps` is "neither lies
      wholly to one side of the other". */
  lemma OverlapsIffTouch(a: IRange, b: IRange)
    requires a.WellFormed() && b.WellFormed()
    ensures a.Overlaps(b) <==> a.left <= b.right && b.left <= a.right
  {
  }

  /** For intervals that are not empty, `overlaps` holds exactly when they
      share an integer, so it is symmetric. */
  lemma OverlapsIffShare(a: IRange, b: IRange)
    requires a.WellFormed() && b.WellFormed()
    ensures a.Overlaps(b) <==> exists n :: a.Contains(n) && b.Contains(n)
    ensures a.Overlaps(b) <==> b.Overlaps(a)
  {
    OverlapsIffTouch(a, b);
    OverlapsIffTouch(b, a);
    if a.Overlaps(b) {
      assert a.Contains(Max(a.left, b.left)) && b.Contains(Max(a.left, b.left));
    }
  }

  /** Two intervals that share no integer do not overlap either way. */
  lemma ApartFromNoShare(a: IRange, b: IRange)
    requires a.WellFormed() && b.WellFormed()
    requires forall n :: !(a.Contains(n) && b.Contains(n))
    ensures !a.Overlaps(b) && !b.Overlaps(a)
  {
    OverlapsIffTouch(a, b);
    OverlapsIffTouch(b, a);
    assert !(a.Contains(Max(a.left, b.left)) && b.Contains(Max(a.left, b.left)));
  }

  /** Adding overlapping intervals covers exactly the integers of both. */
  lemma AddIsUnion(a: IRange, o: IRange)
    requires a.WellFormed() && o.WellFormed() && a.Overlaps(o)
    ensures a.Add(o).WellFormed()
    ensures forall n :: a.Add(o).Contains(n) <==> a.Contains(n) || o.Contains(n)
  {
    OverlapsIffTouch(a, o);
  }

  /** The integers covered by some interval of `rs`. */
  predicate Covers(rs: seq<IRange>, n: int) { exists i :: 0 <= i < |rs| && rs[i].Contains(n) }

  /** What `IRangeSet::add` keeps: every interval well formed and no two
      of them overlapping. */
  ghost predicate ValidRanges(rs: seq<IRange>) {
    (forall i :: 0 <= i < |rs| ==> rs[i].WellFormed())
    && forall i, j :: 0 <= i < |rs| && 0 <= j < |rs| && i != j ==> !rs[i].Overlaps(rs[j])
  }

  /** The stored intervals `partition` leaves apart from `range`, in order. */
  function Kept(rs: seq<IRange>, range: IRange): (ks: seq<IRange>)
    ensures forall k :: k in ks <==> k in rs && !k.Overlaps(range)
  {
    if |rs| == 0 then []
    else (if rs[0].Overlaps(range) then [] else [rs[0]]) + Kept(rs[1..], range)
  }

  /** The stored intervals `partition` finds overlapping `range`, in order. */
  function Overlapping(rs: seq<IRange>, range: IRange): (os: seq<IRange>)
    ensures forall o :: o in os <==> o in rs && o.Overlaps(range)
  {
    if |rs| == 0 then []
    else (if rs[0].Overlaps(range) then [rs[0]] else []) + Overlapping(rs[1..], range)
  }

  /** The `fold` of `+` over the overlapping intervals. */
  function FoldAdd(acc: IRange, os: seq<IRange>): IRange
    decreases |os|
  {
    if |os| == 0 then acc else FoldAdd(acc.Add(os[0]), os[1..])
  }

  /** The intervals after `IRangeSet::add(range)`. */
  function AddedTo(rs: seq<IRange>, range: IRange): seq<IRange> {
    if |rs| == 0 then [range]
    else Kept(rs, range) + [FoldAdd(range, Overlapping(rs, range))]
  }

  /** Folding `+` from an interval that covers `range` over intervals that
      overlap `range` covers exactly the start and all of them. */
  lemma {:induction false} FoldAddCovers(acc: IRange, os: seq<IRange>, range: IRange)
    requires acc.WellFormed() && range.WellFormed()
    requires acc.left <= range.left && range.right <= acc.right
    requires forall o :: o in os ==> o.WellFormed() && o.Overlaps(range)
    ensures FoldAdd(acc, os).WellFormed()
    ensures forall n :: FoldAdd(acc, os).Contains(n) <==> acc.Contains(n) || exists o :: o in os && o.Contains(n)
    decreases |os|
  {
    if |os| > 0 {
      var o := os[0];
      OverlapsIffTouch(o, range);
      OverlapsIffTouch(acc, o);
      AddIsUnion(acc, o);
      var next := acc.Add(o);
      FoldAddCovers(next, os[1..], range);
      forall n
        ensures FoldAdd(acc, os).Contains(n) <==> acc.Contains(n) || exists o' :: o' in os && o'.Contains(n)
      {
        if exists o' :: o' in os && o'.Contains(n) {
          var o' :| o' in os && o'.Contains(n);
          if o' != o {
            assert o' in os[1..];
          }
        }
        if exists o' :: o' in os[1..] && o'.Contains(n) {
          var o' :| o' in os[1..] && o'.Contains(n);
          assert o' in os;
        }
      }
    }
  }

  /** Two different intervals of a valid list do not overlap. */
  lemma ValuesApart(rs: seq<IRange>, a: IRange, b: IRange)
    requires ValidRanges(rs) && a in rs && b in rs && a != b
    ensures !a.Overlaps(b)
  {
    var i :| 0 <= i < |rs| && rs[i] == a;
    var j :| 0 <= j < |rs| && rs[j] == b;
  }

  /** Keeping some of a valid list's intervals keeps it valid. */
  lemma {:induction false} KeptValid(rs: seq<IRange>, range: IRange)
    requires ValidRanges(rs)
    ensures ValidRanges(Kept(rs, range))
    decreases |rs|
  {
    if |rs| > 0 {
      var tail := rs[1..];
      assert ValidRanges(tail) by {
        forall i, j | 0 <= i < |tail| && 0 <= j < |tail| && i != j
          ensures !tail[i].Overlaps(tail[j])
        {
          assert tail[i] == rs[i + 1] && tail[j] == rs[j + 1];
        }
      }
      KeptValid(tail, range);
      var ks := Kept(tail, range);
      forall k | k in ks
        ensures !rs[0].Overlaps(k) && !k.Overlaps(rs[0])
      {
        var j :| 0 <= j < |tail| && tail[j] == k;
        assert rs[j + 1] == k;
      }
    }
  }

  /** No kept interval overlaps the merged one. */
  lemma KeptApart(rs: seq<IRange>, range: IRange, k: IRange)
    requires ValidRanges(rs) && range.WellFormed() && k in Kept(rs, range)
    ensures var m := FoldAdd(range, Overlapping(rs, range));
      !k.Overlaps(m) && !m.Overlaps(k)
  {
    var os := Overlapping(rs, range);
    FoldAddCovers(range, os, range);
    var m := FoldAdd(range, os);
    forall n
      ensures !(k.Contains(n) && m.Contains(n))
    {
      OverlapsIffShare(k, range);
      if exists o :: o in os && o.Contains(n) {
        var o :| o in os && o.Contains(n);
        ValuesApart(rs, k, o);
        OverlapsIffShare(k, o);
      }
    }
    ApartFromNoShare(k, m);
  }

  /** `IRangeSet::add` keeps the intervals valid, and afterwards they
      cover exactly what they covered before and the new interval. */
  lemma AddedRanges(rs: seq<IRange>, range: IRange)
    requires ValidRanges(rs) && range.WellFormed()
    ensures ValidRanges(AddedTo(rs, range))
    ensures forall n :: Covers(AddedTo(rs, range), n) <==> Covers(rs, n) || range.Contains(n)
  {
    if |rs| > 0 {
      AddedValid(rs, range);
      AddedCovers(rs, range);
    } else {
      forall n | range.Contains(n)
        ensures Covers(AddedTo(rs, range), n)
      {
        assert AddedTo(rs, range)[0] == range;
      }
    }
  }

  lemma AddedValid(rs: seq<IRange>, range: IRange)
    requires ValidRanges(rs) && range.WellFormed() && |rs| > 0
    ensures ValidRanges(AddedTo(rs, range))
  {
    var ks := Kept(rs, range);
    var os := Overlapping(rs, range);
    var added := ks + [FoldAdd(range, os)];
    assert AddedTo(rs, range) == added;
    FoldAddCovers(range, os, range);
    KeptValid(rs, range);
    forall i, j | 0 <= i < |added| && 0 <= j < |added| && i != j
      ensures !added[i].Overlaps(added[j])
    {
      if i == |ks| {
        KeptApart(rs, range, added[j]);
      } else if j == |ks| {
        KeptApart(rs, range, added[i]);
      } else {
        assert added[i] == ks[i] && added[j] == ks[j];
      }
    }
  }

  lemma AddedCovers(rs: seq<IRange>, range: IRange)
    requires ValidRanges(rs) && range.WellFormed() && |rs| > 0
    ensures forall n :: Covers(AddedTo(rs, range), n) <==> Covers(rs, n) || range.Contains(n)
  {
    var ks := Kept(rs, range);
    var os := Overlapping(rs, range);
    var added := ks + [FoldAdd(range, os)];
    assert AddedTo(rs, range) == added;
    FoldAddCovers(range, os, range);
    forall n
      ensures Covers(added, n) <==> Covers(rs, n) || range.Contains(n)
    {
      if Covers(rs, n) {
        var i :| 0 <= i < |rs| && rs[i].Contains(n);
        if rs[i].Overlaps(range) {
          assert rs[i] in os;
          assert added[|ks|].Contains(n);
        } else {
          var j :| 0 <= j < |ks| && ks[j] == rs[i];
          assert added[j].Contains(n);
        }
      }
      if range.Contains(n) {
        assert added[|ks|].Contains(n);
      }
      if Covers(added, n) {
        var i :| 0 <= i < |added| && added[i].Contains(n);
        if i < |ks| {
          assert ks[i] in rs;
          var j :| 0 <= j < |rs| && rs[j] == ks[i];
        } else if !range.Contains(n) {
          var o :| o in os && o.Contains(n);
          var j :| 0 <= j < |rs| && rs[j] == o;
        }
      }
    }
  }


  /** `len`'s sum: one more than `right - left` for each interval. */
  function Total(rs: seq<IRange>): int {
    if |rs| == 0 then 0 else Total(rs[..|rs| - 1]) + 1 + rs[|rs| - 1].right - rs[|rs| - 1].left
  }

  /** The integers of an interval, as a set. */
  ghost function Span(r: IRange): (s: set<int>)
    ensures forall n :: n in s <==> r.Contains(n)
    ensures |s| == if r.WellFormed() then r.right - r.left + 1 else 0
    decreases r.right - r.left
  {
    if r.right < r.left then {} else Span(IRange(r.left, r.right - 1)) + {r.right}
  }

  /** The integers the intervals cover, as a set. */
  ghost function Covered(rs: seq<IRange>): set<int> {
    if |rs| == 0 then {} else Covered(rs[..|rs| - 1]) + Span(rs[|rs| - 1])
  }

  lemma {:induction false} CoveredIsCovers(rs: seq<IRange>)
    ensures forall n :: n in Covered(rs) <==> Covers(rs, n)
    decreases |rs|
  {
    if |rs| > 0 {
      var init := rs[..|rs| - 1];
      CoveredIsCovers(init);
      forall n
        ensures n in Covered(rs) <==> Covers(rs, n)
      {
        if Covers(init, n) {
          var i :| 0 <= i < |init| && init[i].Contains(n);
          assert rs[i] == init[i];
        }
        if Covers(rs, n) {
          var i :| 0 <= i < |rs| && rs[i].Contains(n);
          if i < |init| {
            assert init[i] == rs[i];
          }
        }
      }
    }
  }

  lemma CoveredAt(rs: seq<IRange>, n: int)
    ensures n in Covered(rs) <==> Covers(rs, n)
  {
    CoveredIsCovers(rs);
  }

  /** For valid intervals, `len` counts the integers they cover. */
  lemma {:induction false} TotalIsSize(rs: seq<IRange>)
    requires ValidRanges(rs)
    ensures Total(rs) == |Covered(rs)|
    decreases |rs|
  {
    if |rs| > 0 {
      var init, last := rs[..|rs| - 1], rs[|rs| - 1];
      ValidRangesInit(rs);
      TotalIsSize(init);
      LastApart(rs);
    }
  }

  lemma ValidRangesInit(rs: seq<IRange>)
    requires ValidRanges(rs) && |rs| > 0
    ensures ValidRanges(rs[..|rs| - 1])
  {
    var init := rs[..|rs| - 1];
    forall i, j | 0 <= i < |init| && 0 <= j < |init| && i != j
      ensures !init[i].Overlaps(init[j])
    {
      assert init[i] == rs[i] && init[j] == rs[j];
    }
  }

  /** The last of valid intervals shares no integer with the others. */
  lemma LastApart(rs: seq<IRange>)
    requires ValidRanges(rs) && |rs| > 0
    ensures Covered(rs[..|rs| - 1]) * Span(rs[|rs| - 1]) == {}
  {
    var init, last := rs[..|rs| - 1], rs[|rs| - 1];
    CoveredIsCovers(init);
    forall n | n in Covered(init)
      ensures n !in Span(last)
    {
      var i :| 0 <= i < |init| && init[i].Contains(n);
      assert init[i] == rs[i];
      OverlapsIffShare(rs[i], last);
    }
  }

  /** `IRangeSet`: closed intervals, merged as they are added. */
  class IRangeSet {
    var ranges: seq<IRange>

    constructor()
      ensures ranges == []
    {
      ranges := [];
    }

    /** `add`: the intervals overlapping `range` are folded into it and
        the result appended after the others. */
    method Add(range: IRange)
      modifies this
      ensures ranges == AddedTo(old(ranges), range)
    {
      if |ranges| == 0 {
        ranges := [range];
      } else {
        var overlapping := Overlapping(ranges, range);
        var kept := Kept(ranges, range);
        ranges := kept + [FoldAdd(range, overlapping)];
      }
    }

    /** `contains`: a scan for an interval holding `n`. */
    method Contains(n: int) returns (b: bool)
      ensures b <==> Covers(ranges, n)
    {
      for i := 0 to |ranges|
        invariant forall j :: 0 <= j < i ==> !ranges[j].Contains(n)
      {
        if ranges[i].Contains(n) {
          return true;
        }
      }
      return false;
    }

    /** `len`: the sum of the interval lengths. */
    method Len() returns (len: int)
      ensures len == Total(ranges)
    {
      len := 0;
      for i := 0 to |ranges|
        invariant len == Total(ranges[..i])
      {
        assert ranges[..i + 1][..i] == ranges[..i];
        len := len + 1 + ranges[i].right - ranges[i].left;
      }
      assert ranges[..|ranges|] == ranges;
    }
  }

  /** The source's example of merging intervals, one `add` at a time:
      [5, 6] and [3, 5] overlap and merge into [3, 6], which goes last;
      [15, 16] lies inside [12, 17], which replaces it. */
  lemma RangeSetSteps()
    ensures AddedTo([], IRange(5, 6)) == [IRange(5, 6)]
    ensures AddedTo([IRange(5, 6)], IRange(15, 16)) == [IRange(5, 6), IRange(15, 16)]
    ensures AddedTo([IRange(5, 6), IRange(15, 16)], IRange(3, 5)) == [IRange(15, 16), IRange(3, 6)]
    ensures AddedTo([IRange(15, 16), IRange(3, 6)], IRange(12, 17)) == [IRange(3, 6), IRange(12, 17)]
    ensures Total([IRange(3, 6), IRange(12, 17)]) == 10
  {
    assert Kept([IRange(5, 6), IRange(15, 16)], IRange(3, 5)) == [IRange(15, 16)];
    assert Overlapping([IRange(5, 6), IRange(15, 16)], IRange(3, 5)) == [IRange(5, 6)];
    assert Kept([IRange(15, 16), IRange(3, 6)], IRange(12, 17)) == [IRange(3, 6)];
    assert Overlapping([IRange(15, 16), IRange(3, 6)], IRange(12, 17)) == [IRange(15, 16)];
  }

  /** The source's example run: after the four additions, 17 is covered,
      7 is not, and ten integers are. */
  method RangeSetExample() {
    RangeSetSteps();
    var rs := new IRangeSet();
    rs.Add(IRange(5, 6));
    rs.Add(IRange(15, 16));
    rs.Add(IRange(3, 5));
    assert rs.ranges == [IRange(15, 16), IRange(3, 6)];
    rs.Add(IRange(12, 17));
    RangeSetQueries(rs);
  }

  /** The queries of the example on the final intervals. */
  method RangeSetQueries(rs: IRangeSet)
    requires rs.ranges == [IRange(3, 6), IRange(12, 17)]
  {
    RangeSetSteps();
    var in17 := rs.Contains(17);
    var in7 := rs.Contains(7);
    assert rs.ranges[1].Contains(17);
    assert in17 && !in7;
    var len := rs.Len();
    assert len == 10;
  }


  /** The part of `row` that a sensor's diamond covers. */
  ghost function RowSlice(s: Sensor, row: int): set<int> {
    match FindNoBeaconRange(s, row)
    case None => {}
    case Some((l, r)) => Span(IRange(l, r))
  }

  /** The positions on `row` covered by some sensor's diamond. */
  ghost function Excluded(sensors: seq<Sensor>, row: int): set<int> {
    if |sensors| == 0 then {}
    else Excluded(sensors[..|sensors| - 1], row) + RowSlice(sensors[|sensors| - 1], row)
  }

  /** The positions on `row` holding a sensor or a beacon. */
  function Locs(sensors: seq<Sensor>, row: int): set<int> {
    if |sensors| == 0 then {}
    else
      var s := sensors[|sensors| - 1];
      Locs(sensors[..|sensors| - 1], row) + (if s.beaconY == row then {s.beaconX} else {}) + (if s.y == row then {s.x} else {})
  }

  lemma RowSliceMeaning(s: Sensor, row: int, x: int)
    ensures x in RowSlice(s, row) <==> s.Contains((x, row))
  {
  }

  /** A position is excluded exactly when some sensor's diamond holds it. */
  lemma {:induction false} ExcludedMeaning(sensors: seq<Sensor>, row: int, x: int)
    ensures x in Excluded(sensors, row) <==> exists i :: 0 <= i < |sensors| && sensors[i].Contains((x, row))
    decreases |sensors|
  {
    if |sensors| > 0 {
      var init, s := sensors[..|sensors| - 1], sensors[|sensors| - 1];
      ExcludedMeaning(init, row, x);
      RowSliceMeaning(s, row, x);
      CoveredByStep(sensors, init, (x, row));
    }
  }

  /** Some sensor holds `p` exactly when one before the last does or the
      last one does. */
  lemma CoveredByStep(sensors: seq<Sensor>, init: seq<Sensor>, p: Point)
    requires |sensors| > 0 && init == sensors[..|sensors| - 1]
    ensures (exists i :: 0 <= i < |sensors| && sensors[i].Contains(p)) <==>
      (exists i :: 0 <= i < |init| && init[i].Contains(p)) || sensors[|sensors| - 1].Contains(p)
  {
    if exists i :: 0 <= i < |init| && init[i].Contains(p) {
      var i :| 0 <= i < |init| && init[i].Contains(p);
      assert sensors[i] == init[i];
    }
    if exists i :: 0 <= i < |sensors| && sensors[i].Contains(p) {
      var i :| 0 <= i < |sensors| && sensors[i].Contains(p);
      if i < |init| {
        assert init[i] == sensors[i];
      }
    }
  }

  /** `IRangeSet::add` keeps the intervals valid and adds the new
      interval's integers to those covered. */
  lemma AddedCovered(rs: seq<IRange>, range: IRange)
    requires ValidRanges(rs) && range.WellFormed()
    ensures ValidRanges(AddedTo(rs, range))
    ensures Covered(AddedTo(rs, range)) == Covered(rs) + Span(range)
  {
    var added := AddedTo(rs, range);
    AddedRanges(rs, range);
    CoveredIsCovers(rs);
    CoveredIsCovers(added);
    forall n
      ensures n in Covered(added) <==> n in Covered(rs) + Span(range)
    {
    }
  }

  lemma SensorsPrefix(sensors: seq<Sensor>, i: nat, row: int)
    requires i < |sensors|
    ensures Excluded(sensors[..i + 1], row) == Excluded(sensors[..i], row) + RowSlice(sensors[i], row)
    ensures Locs(sensors[..i + 1], row) == Locs(sensors[..i], row)
      + (if sensors[i].beaconY == row then {sensors[i].beaconX} else {}) + (if sensors[i].y == row then {sensors[i].x} else {})
  {
    assert sensors[..i + 1][..i] == sensors[..i];
  }

  lemma DifferenceSize(a: set<int>, b: set<int>)
    ensures |a - b| == |a| - |b * a|
  {
    assert a == (a - b) + b * a;
    assert (a - b) * (b * a) == {};
  }

  /** The first half of `part_one`: the row slice of every sensor's
      diamond added to a fresh interval set, and the sensors and beacons
      on the row collected. */
  method ScanRow(sensors: seq<Sensor>, row: int) returns (rs: IRangeSet, locs: set<int>)
    ensures fresh(rs)
    ensures ValidRanges(rs.ranges) && Covered(rs.ranges) == Excluded(sensors, row)
    ensures locs == Locs(sensors, row)
  {
    rs := new IRangeSet();
    locs := {};
    for i := 0 to |sensors|
      invariant fresh(rs)
      invariant ValidRanges(rs.ranges)
      invariant Covered(rs.ranges) == Excluded(sensors[..i], row)
      invariant locs == Locs(sensors[..i], row)
    {
      locs := ScanSensor(sensors, i, row, rs, locs);
    }
    assert sensors[..|sensors|] == sensors;
  }

  /** The loop body of `ScanRow`: sensor `i` and its beacon join the
      locations when they lie on the row, and its row slice joins the
      intervals. */
  method ScanSensor(sensors: seq<Sensor>, i: nat, row: int, rs: IRangeSet, locs: set<int>) returns (locs': set<int>)
    requires i < |sensors| && ValidRanges(rs.ranges) && Covered(rs.ranges) == Excluded(sensors[..i], row)
    requires locs == Locs(sensors[..i], row)
    modifies rs
    ensures ValidRanges(rs.ranges) && Covered(rs.ranges) == Excluded(sensors[..i + 1], row)
    ensures locs' == Locs(sensors[..i + 1], row)
  {
    var s := sensors[i];
    ScanStep(sensors, i, row, rs.ranges);
    ghost var before := rs.ranges;
    locs' := locs;
    if s.beaconY == row {
      locs' := locs' + {s.beaconX};
    }
    if s.y == row {
      locs' := locs' + {s.x};
    }
    var range := FindNoBeaconRange(s, row);
    if range.Some? {
      rs.Add(IRange(range.value.0, range.value.1));
      assert rs.ranges == AddedTo(before, IRange(range.value.0, range.value.1));
    } else {
      assert rs.ranges == before;
    }
  }

  /** One sensor of `ScanRow`: its row slice, when it has one, joins the
      intervals. */
  lemma ScanStep(sensors: seq<Sensor>, i: nat, row: int, ranges: seq<IRange>)
    requires i < |sensors| && ValidRanges(ranges) && Covered(ranges) == Excluded(sensors[..i], row)
    ensures var s := sensors[i];
      Locs(sensors[..i + 1], row) == Locs(sensors[..i], row)
        + (if s.beaconY == row then {s.beaconX} else {}) + (if s.y == row then {s.x} else {})
    ensures var range := FindNoBeaconRange(sensors[i], row);
      && (range.None? ==> Covered(ranges) == Excluded(sensors[..i + 1], row))
      && (range.Some? ==> var added := AddedTo(ranges, IRange(range.value.0, range.value.1));
            ValidRanges(added) && Covered(added) == Excluded(sensors[..i + 1], row))
  {
    SensorsPrefix(sensors, i, row);
    var range := FindNoBeaconRange(sensors[i], row);
    if range.Some? {
      var slice := IRange(range.value.0, range.value.1);
      AddedCovered(ranges, slice);
    }
  }

  /** `part_one`: how many positions on `row` cannot hold a beacon: those
      some sensor covers, less those where a sensor or beacon already is. */
  method PartOne(sensors: seq<Sensor>, row: int) returns (count: int)
    ensures count == |Excluded(sensors, row) - Locs(sensors, row)|
  {
    var rs, locs := ScanRow(sensors, row);
    var len := rs.Len();
    TotalIsSize(rs.ranges);
    var inside := |set n | n in locs && Covers(rs.ranges, n)|;
    CoveredIsCovers(rs.ranges);
    assert (set n | n in locs && Covers(rs.ranges, n)) == locs * Covered(rs.ranges);
    DifferenceSize(Covered(rs.ranges), locs);
    count := len - inside;
  }

  predicate InSquare(p: Point, limit: int) { 0 <= p.0 <= limit && 0 <= p.1 <= limit }

  /** `part_two`: the tuning frequency 4000000 * x + y of a point in the
      square [0, limit]² just outside some sensor's diamond that no sensor
      covers; `None` where the source reaches `unreachable!`. */
  method PartTwo(sensors: seq<Sensor>, limit: int) returns (r: Option<int>)
    ensures r.Some? ==>
      exists p, i :: 0 <= i < |sensors| && sensors[i].OnBoundary(p) && InSquare(p, limit)
        && (forall j :: 0 <= j < |sensors| ==> !sensors[j].Contains(p)) && r.value == 4000000 * p.0 + p.1
    ensures r.None? ==>
      forall p, i :: 0 <= i < |sensors| && sensors[i].OnBoundary(p) && InSquare(p, limit) ==>
        exists j :: 0 <= j < |sensors| && sensors[j].Contains(p)
  {
    var outside: seq<Point> := [];
    for i := 0 to |sensors|
      invariant forall p :: p in outside <==> exists j :: 0 <= j < i && sensors[j].OnBoundary(p)
    {
      var points := OutsidePoints(sensors[i]);
      outside := outside + points;
    }
    for k := 0 to |outside|
      invariant forall j :: 0 <= j < k && InSquare(outside[j], limit) ==>
        exists i :: 0 <= i < |sensors| && sensors[i].Contains(outside[j])
    {
      var p := outside[k];
      if 0 <= p.0 <= limit && 0 <= p.1 <= limit {
        if !exists i :: 0 <= i < |sensors| && sensors[i].Contains(p) {
          assert p in outside;
          ghost var i :| 0 <= i < |sensors| && sensors[i].OnBoundary(p);
          return Some(4000000 * p.0 + p.1);
        }
      }
    }
    forall p, i | 0 <= i < |sensors| && sensors[i].OnBoundary(p) && InSquare(p, limit)
      ensures exists j :: 0 <= j < |sensors| && sensors[j].Contains(p)
    {
      assert p in outside;
      var k :| 0 <= k < |outside| && outside[k] == p;
    }
    return None;
  }
}

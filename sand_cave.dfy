/** Day 14 of 2022, "Regolith Reservoir": rock paths drawn into a sparse
    grid, then grains of sand dropped from (500, 0) one at a time. */
module SandCave {
  import opened Wrappers
  import opened Strings

  datatype Tile = Source | Rock | Sand | Void

  /** (x, y) with y growing downwards. */
  type Loc = (int, int)

  const UsizeMax: int := 0xFFFF_FFFF_FFFF_FFFF

  /** `update_min`: the smaller of the two. */
  function UpdateMin(min: int, other: int): (r: int)
    ensures r <= min && r <= other && (r == min || r == other)
  {
    if other < min then other else min
  }

  /** `update_max`: the larger of the two. */
  function UpdateMax(max: int, other: int): (r: int)
    ensures r >= max && r >= other && (r == max || r == other)
  {
    if other > max then other else max
  }

  // ---------------------------------------------------------------
  // Parsing: "x,y -> x,y -> ..." lines of rock paths

  /** "x,y" with two `usize` coordinates. */
  function ParsePoint(s: string): (r: Option<Loc>)
    ensures r.Some? ==> 0 <= r.value.0 < USizeLimit && 0 <= r.value.1 < USizeLimit
  {
    match SplitOnce(s, ",")
    case None => None
    case Some((x, y)) =>
      match (ParseUSize(x), ParseUSize(y))
      case (Some(a), Some(b)) => Some((a, b))
      case _ => None
  }

  /** `ParsePoint` reads back what `to_string` writes. */
  lemma ParsePointOf(x: nat, y: nat)
    requires x < USizeLimit && y < USizeLimit
    ensures ParsePoint(NatToString(x) + "," + NatToString(y)) == Some((x, y))
  {
    var (a, b) := (NatToString(x), NatToString(y));
    SplitOnSep(a, ",", b);
    SplitOnSep(b, ",", "");
    assert SplitOn(a + "," + b, ",") == [a, b];
    assert SplitOnce(a + "," + b, ",") == Some((a, b));
    ParseNatToString(x);
    ParseNatToString(y);
  }

  function ParsePoints(parts: seq<string>): (r: Option<seq<Loc>>)
    ensures r.Some? ==> |r.value| == |parts|
    ensures r.Some? ==> forall i :: 0 <= i < |parts| ==> ParsePoint(parts[i]) == Some(r.value[i])
    ensures r.None? ==> exists i :: 0 <= i < |parts| && ParsePoint(parts[i]).None?
  {
    if |parts| == 0 then Some([])
    else match (ParsePoint(parts[0]), ParsePoints(parts[1..]))
      case (Some(p), Some(ps)) => Some([p] + ps)
      case (None, _) => None
      case (_, None) => None
  }

  /** The corners of one line's path. The loop only reads points in pairs,
      so a line with a single point is never parsed and draws nothing. */
  function PathOf(line: string): Option<seq<Loc>>
  {
    var parts := SplitOn(line, " -> ");
    if |parts| < 2 then Some([]) else ParsePoints(parts)
  }

  /** `p` lies on the segment from `a` to `b`, ends included, whichever
      way the segment runs. */
  predicate InBox(p: Loc, a: Loc, b: Loc)
  {
    UpdateMin(a.0, b.0) <= p.0 <= UpdateMax(a.0, b.0) && UpdateMin(a.1, b.1) <= p.1 <= UpdateMax(a.1, b.1)
  }

  function Box(a: Loc, b: Loc): (s: set<Loc>)
    ensures forall p :: p in s <==> InBox(p, a, b)
  {
    var xl, xr, yl, yr := UpdateMin(a.0, b.0), UpdateMax(a.0, b.0), UpdateMin(a.1, b.1), UpdateMax(a.1, b.1);
    set x, y | xl <= x <= xr && yl <= y <= yr :: (x, y)
  }

  /** The tiles after one segment is drawn as rock. */
  function Drawn(tiles: map<Loc, Tile>, a: Loc, b: Loc): (r: map<Loc, Tile>)
    ensures forall p :: p in r <==> p in tiles || InBox(p, a, b)
    ensures forall p :: p in r ==> r[p] == if InBox(p, a, b) then Rock else tiles[p]
  {
    map p | p in tiles.Keys + Box(a, b) :: if InBox(p, a, b) then Rock else tiles[p]
  }

  /** The tiles after the first `n` segments of a path are drawn. */
  function DrawnPath(tiles: map<Loc, Tile>, pts: seq<Loc>, n: nat): map<Loc, Tile>
    requires n < |pts| || n == 0
  {
    if n == 0 then tiles else Drawn(DrawnPath(tiles, pts, n - 1), pts[n - 1], pts[n])
  }

  /** A point is drawn by a path exactly when it lies on one of its first
      `n` segments; drawing only ever writes rock. */
  lemma {:induction false} DrawnPathMeaning(tiles: map<Loc, Tile>, pts: seq<Loc>, n: nat, p: Loc)
    requires n < |pts| || n == 0
    ensures p in DrawnPath(tiles, pts, n) <==> p in tiles || exists i :: 0 <= i < n && InBox(p, pts[i], pts[i + 1])
    ensures p in DrawnPath(tiles, pts, n) && (exists i :: 0 <= i < n && InBox(p, pts[i], pts[i + 1])) ==>
      DrawnPath(tiles, pts, n)[p] == Rock
    ensures p in DrawnPath(tiles, pts, n) && !(exists i :: 0 <= i < n && InBox(p, pts[i], pts[i + 1])) ==>
      DrawnPath(tiles, pts, n)[p] == tiles[p]
  {
    if n > 0 {
      DrawnPathMeaning(tiles, pts, n - 1, p);
      OnSegmentsStep(pts, n, p);
    }
  }

  /** Lying on one of the first `n` segments is lying on one of the first
      `n - 1` or on the `n`th. */
  lemma OnSegmentsStep(pts: seq<Loc>, n: nat, p: Loc)
    requires 0 < n < |pts|
    ensures (exists i :: 0 <= i < n && InBox(p, pts[i], pts[i + 1])) <==>
      (exists i :: 0 <= i < n - 1 && InBox(p, pts[i], pts[i + 1])) || InBox(p, pts[n - 1], pts[n])
  {
    var onNow := exists i :: 0 <= i < n && InBox(p, pts[i], pts[i + 1]);
    var onBefore := exists i :: 0 <= i < n - 1 && InBox(p, pts[i], pts[i + 1]);
    if onNow {
      var i :| 0 <= i < n && InBox(p, pts[i], pts[i + 1]);
      assert i < n - 1 ==> onBefore;
    }
    if InBox(p, pts[n - 1], pts[n]) {
      assert onNow;
    }
    if onBefore {
      var i :| 0 <= i < n - 1 && InBox(p, pts[i], pts[i + 1]);
      assert onNow;
    }
  }

  /** The extents after the first `n` segments: each segment feeds both of
      its ends to `update_max`/`update_min`. */
  function ExtentsPath(ext: (int, int, int), pts: seq<Loc>, n: nat): (int, int, int)
    requires n < |pts| || n == 0
  {
    if n == 0 then ext
    else
      var (maxY, minX, maxX) := ExtentsPath(ext, pts, n - 1);
      var (l, r) := (pts[n - 1], pts[n]);
      (UpdateMax(UpdateMax(maxY, l.1), r.1), UpdateMin(UpdateMin(minX, l.0), r.0), UpdateMax(UpdateMax(maxX, l.0), r.0))
  }

  /** The extents bound every corner of the segments, and each is either
      the starting value or one of the corners. */
  lemma {:induction false} ExtentsBound(ext: (int, int, int), pts: seq<Loc>, n: nat)
    requires n < |pts| || n == 0
    ensures var (maxY, minX, maxX) := ExtentsPath(ext, pts, n);
      maxY >= ext.0 && minX <= ext.1 && maxX >= ext.2
      && (forall i :: 0 <= i < n + 1 && n > 0 ==> pts[i].1 <= maxY && minX <= pts[i].0 <= maxX)
      && (maxY == ext.0 || exists i :: 0 <= i < n + 1 && n > 0 && maxY == pts[i].1)
      && (minX == ext.1 || exists i :: 0 <= i < n + 1 && n > 0 && minX == pts[i].0)
  {
    if n > 0 {
      ExtentsBound(ext, pts, n - 1);
    }
  }

  /** One segment drawn in place: the two nested loops of `parse_input`. */
  method DrawSegment(tiles: map<Loc, Tile>, a: Loc, b: Loc) returns (r: map<Loc, Tile>)
    ensures r == Drawn(tiles, a, b)
  {
    var (xl, xr) := (a.0, b.0);
    var (yl, yr) := (a.1, b.1);
    if xl > xr {
      xl, xr := xr, xl;
    }
    if yl > yr {
      yl, yr := yr, yl;
    }
    r := tiles;
    for x := xl to xr + 1
      invariant forall p :: p in r <==> p in tiles || (InBox(p, a, b) && p.0 < x)
      invariant forall p :: p in r ==> r[p] == if InBox(p, a, b) && p.0 < x then Rock else tiles[p]
    {
      for y := yl to yr + 1
        invariant forall p :: p in r <==> p in tiles || (InBox(p, a, b) && (p.0 < x || (p.0 == x && p.1 < y)))
        invariant forall p :: p in r ==>
          r[p] == if InBox(p, a, b) && (p.0 < x || (p.0 == x && p.1 < y)) then Rock else tiles[p]
      {
        r := r[(x, y) := Rock];
      }
    }
  }

  /** The rock drawn and the extents (max_y, min_x, max_x) reached after
      the given lines; `None` where an `unwrap` panics. `min_x` starts at
      `usize::MAX`. */
  function RocksOf(lines: seq<string>): Option<(map<Loc, Tile>, (int, int, int))>
    decreases |lines|
  {
    if |lines| == 0 then Some((map[], (0, UsizeMax, 0)))
    else match RocksOf(lines[..|lines| - 1])
      case None => None
      case Some((tiles, ext)) =>
        match PathOf(lines[|lines| - 1])
        case None => None
        case Some(pts) =>
          var n := if |pts| < 2 then 0 else |pts| - 1;
          Some((DrawnPath(tiles, pts, n), ExtentsPath(ext, pts, n)))
  }

  /** Rock on row `y` for `lo <= x < hi` (the part-two floor, and what
      `extend_left` and `extend_right` add to it), laid left to right. */
  function WithFloor(tiles: map<Loc, Tile>, y: int, lo: int, hi: int): map<Loc, Tile>
    decreases hi - lo
  {
    if hi <= lo then tiles else WithFloor(tiles, y, lo, hi - 1)[(hi - 1, y) := Rock]
  }

  /** The floor covers exactly the cells (x, y) with `lo <= x < hi`, as
      rock, and keeps every other tile. */
  lemma {:induction false} FloorMeaning(tiles: map<Loc, Tile>, y: int, lo: int, hi: int)
    ensures var r := WithFloor(tiles, y, lo, hi);
      (forall p :: p in r <==> p in tiles || (p.1 == y && lo <= p.0 < hi))
      && (forall p :: p in r ==> r[p] == if p.1 == y && lo <= p.0 < hi then Rock else tiles[p])
    decreases hi - lo
  {
    if hi > lo {
      FloorMeaning(tiles, y, lo, hi - 1);
    }
  }

  /** Void on row `y` for `lo <= x <= hi` wherever there is nothing yet
      (the part-one edge of the abyss). */
  function WithVoids(tiles: map<Loc, Tile>, y: int, lo: int, hi: int): (r: map<Loc, Tile>)
    ensures forall p :: p in r <==> p in tiles || (p.1 == y && lo <= p.0 <= hi)
    ensures forall p :: p in r ==> r[p] == if p in tiles then tiles[p] else Void
  {
    var row := set x | lo <= x <= hi :: (x, y);
    assert forall p :: p in row <==> p.1 == y && lo <= p.0 <= hi;
    map p | p in tiles.Keys + row :: if p in tiles then tiles[p] else Void
  }

  /** `parse_input`: the tiles, max_y, min_x and max_x of the cave. The
      source goes at (500, 0); part two lays a rock floor two rows below
      the lowest rock from min_x - 1 up to, not including, max_x + 1; part
      one puts Void from min_x - 1 to max_x + 1 on the lowest rock row.
      `min_x - 1` panics when min_x is 0. */
  function CaveOf(input: string, partTwo: bool): Option<CaveState>
  {
    match RocksOf(Lines(input))
    case None => None
    case Some((tiles, (maxY, minX, maxX))) =>
      if minX == 0 then None
      else
        var t := tiles[(500, 0) := Source];
        if partTwo then Some(CaveState(WithFloor(t, maxY + 2, minX - 1, maxX + 1), maxY + 2, minX, maxX))
        else Some(CaveState(WithVoids(t, maxY, minX - 1, maxX + 1), maxY, minX, maxX))
  }

  // ---------------------------------------------------------------
  // The cave

  /** The fields of a `Cave` that change: its tiles, `max_y`, `min_x`
      and `max_x`. */
  datatype CaveState = CaveState(tiles: map<Loc, Tile>, maxY: int, minX: int, maxX: int)

  /** What `get_new_loc` finds at a cell: room to move, an obstacle, or
      the source itself, which panics. */
  datatype Probe = Free(loc: Loc) | Blocked | HitsSource

  function ProbeAt(tiles: map<Loc, Tile>, loc: Loc): (r: Probe)
    ensures r.Free? <==> loc !in tiles || tiles[loc] == Void
    ensures r.Free? ==> r.loc == loc
    ensures r == Blocked <==> loc in tiles && (tiles[loc] == Rock || tiles[loc] == Sand)
  {
    if loc !in tiles then Free(loc)
    else match tiles[loc]
      case Source => HitsSource
      case Rock => Blocked
      case Sand => Blocked
      case Void => Free(loc)
  }

  /** The outcome of one `drop_sand`: the grain rests at `loc`
      (`Some(loc)`), it fell onto a Void tile (`None`), or the source
      panics; `OutOfFuel` when the step bound is reached first. */
  datatype Drop = Rest(loc: Loc) | Fell | Panicked | OutOfFuel

  /** A grain at `loc` cannot move: the three cells below are taken. */
  ghost predicate Settled(tiles: map<Loc, Tile>, loc: Loc)
  {
    ProbeAt(tiles, (loc.0, loc.1 + 1)) == Blocked
    && ProbeAt(tiles, (loc.0 - 1, loc.1 + 1)) == Blocked
    && ProbeAt(tiles, (loc.0 + 1, loc.1 + 1)) == Blocked
  }

  /** Where a grain at `loc` goes next: straight down, else down-left,
      else down-right; `None` when all three are taken. The three probes
      are all made before the choice, so either diagonal may panic. */
  function NextLoc(tiles: map<Loc, Tile>, loc: Loc): (r: Result<Option<Loc>, Drop>)
    ensures r.Ok? && r.value.None? <==> loc.0 >= 1 && Settled(tiles, loc)
    ensures r.Ok? && r.value.Some? ==>
      var n := r.value.value;
      n.1 == loc.1 + 1 && ProbeAt(tiles, n).Free?
      && (n.0 == loc.0 || (n.0 == loc.0 - 1 && ProbeAt(tiles, (loc.0, loc.1 + 1)) == Blocked)
          || (n.0 == loc.0 + 1 && ProbeAt(tiles, (loc.0, loc.1 + 1)) == Blocked
              && ProbeAt(tiles, (loc.0 - 1, loc.1 + 1)) == Blocked))
  {
    if loc.0 < 1 then Err(Panicked)
    else
      var down := ProbeAt(tiles, (loc.0, loc.1 + 1));
      var left := ProbeAt(tiles, (loc.0 - 1, loc.1 + 1));
      var right := ProbeAt(tiles, (loc.0 + 1, loc.1 + 1));
      if down.HitsSource? || left.HitsSource? || right.HitsSource? then Err(Panicked)
      else if down.Free? then Ok(Some(down.loc))
      else if left.Free? then Ok(Some(left.loc))
      else if right.Free? then Ok(Some(right.loc))
      else Ok(None)
  }

  /** The top of `drop_sand`'s loop in part two: a grain within two
      columns of `min_x` lays two more columns of floor on the left
      (`extend_left(2)`), else one within two columns of `max_x` lays
      them on the right (`extend_right(2)`). `None` where a `usize`
      subtraction underflows: the grain left of `min_x`, `min_x` below 2,
      or the grain right of `max_x`. */
  function Widen(c: CaveState, sand: Loc): (r: Option<CaveState>)
    ensures r.Some? ==> r.value.maxY == c.maxY && r.value.minX <= c.minX && r.value.maxX >= c.maxX
    ensures r.Some? ==> forall p :: p in c.tiles ==> p in r.value.tiles
    ensures r.Some? ==> forall p :: p in r.value.tiles ==>
      (p in c.tiles && r.value.tiles[p] == c.tiles[p]) || (p.1 == c.maxY && r.value.tiles[p] == Rock)
  {
    FloorMeaning(c.tiles, c.maxY, c.minX - 2, c.minX);
    FloorMeaning(c.tiles, c.maxY, c.maxX, c.maxX + 3);
    if sand.0 < c.minX then None
    else if sand.0 - c.minX <= 2 then
      if c.minX < 2 then None
      else Some(CaveState(WithFloor(c.tiles, c.maxY, c.minX - 2, c.minX), c.maxY, c.minX - 2, c.maxX))
    else if c.maxX < sand.0 then None
    else if c.maxX - sand.0 <= 2 then Some(CaveState(WithFloor(c.tiles, c.maxY, c.maxX, c.maxX + 3), c.maxY, c.minX, c.maxX + 2))
    else Some(c)
  }

  /** One pass of `drop_sand`'s loop for a grain at `sand`: the grain
      moves on, or the drop ends with its outcome; either way with the
      cave afterwards. */
  datatype Move = Moved(cave: CaveState, to: Loc) | Stopped(drop: Drop, cave: CaveState)

  /** In part two the floor is widened first; then the grain moves by
      `NextLoc`. It rests where it stands when it cannot move, and falls
      (a panic in part two) when it moves onto a Void tile. */
  function FallStep(c: CaveState, partTwo: bool, sand: Loc): Move
  {
    var w := if partTwo then Widen(c, sand) else Some(c);
    if w.None? then Stopped(Panicked, c)
    else
      var c' := w.value;
      match NextLoc(c'.tiles, sand)
      case Err(_) => Stopped(Panicked, c')
      case Ok(None) => Stopped(Rest(sand), CaveState(c'.tiles[sand := Sand], c'.maxY, c'.minX, c'.maxX))
      case Ok(Some(n)) =>
        if n in c'.tiles && c'.tiles[n] == Void then Stopped(if partTwo then Panicked else Fell, c')
        else Moved(c', n)
  }

  /** `drop_sand` for a grain at `sand`, with at most `fuel` more passes
      of its loop: the outcome and the cave afterwards. */
  function Fall(c: CaveState, partTwo: bool, sand: Loc, fuel: nat): (Drop, CaveState)
    decreases fuel
  {
    if fuel == 0 then (OutOfFuel, c)
    else match FallStep(c, partTwo, sand)
      case Stopped(d, c') => (d, c')
      case Moved(c', n) => Fall(c', partTwo, n, fuel - 1)
  }

  /** The cave a pass of the loop moves the grain in: `c` itself in part
      one, `c` widened around the grain in part two. */
  predicate WidensTo(c: CaveState, partTwo: bool, sand: Loc, c': CaveState)
  {
    (if partTwo then Widen(c, sand) else Some(c)) == Some(c')
  }

  /** A grain with room straight below moves there first. */
  lemma FallDown(c: CaveState, partTwo: bool, sand: Loc, c': CaveState, fuel: nat)
    requires WidensTo(c, partTwo, sand, c') && sand.0 >= 1 && fuel >= 1
    requires (sand.0, sand.1 + 1) !in c'.tiles
    requires ProbeAt(c'.tiles, (sand.0 - 1, sand.1 + 1)) != HitsSource
    requires ProbeAt(c'.tiles, (sand.0 + 1, sand.1 + 1)) != HitsSource
    ensures Fall(c, partTwo, sand, fuel) == Fall(c', partTwo, (sand.0, sand.1 + 1), fuel - 1)
  {
    assert FallStep(c, partTwo, sand) == Moved(c', (sand.0, sand.1 + 1));
  }

  /** A grain blocked below moves down-left when there is room. */
  lemma FallLeft(c: CaveState, partTwo: bool, sand: Loc, c': CaveState, fuel: nat)
    requires WidensTo(c, partTwo, sand, c') && sand.0 >= 1 && fuel >= 1
    requires ProbeAt(c'.tiles, (sand.0, sand.1 + 1)) == Blocked
    requires (sand.0 - 1, sand.1 + 1) !in c'.tiles
    requires ProbeAt(c'.tiles, (sand.0 + 1, sand.1 + 1)) != HitsSource
    ensures Fall(c, partTwo, sand, fuel) == Fall(c', partTwo, (sand.0 - 1, sand.1 + 1), fuel - 1)
  {
    assert FallStep(c, partTwo, sand) == Moved(c', (sand.0 - 1, sand.1 + 1));
  }

  /** A grain blocked below and down-left moves down-right when there is
      room. */
  lemma FallRight(c: CaveState, partTwo: bool, sand: Loc, c': CaveState, fuel: nat)
    requires WidensTo(c, partTwo, sand, c') && sand.0 >= 1 && fuel >= 1
    requires ProbeAt(c'.tiles, (sand.0, sand.1 + 1)) == Blocked
    requires ProbeAt(c'.tiles, (sand.0 - 1, sand.1 + 1)) == Blocked
    requires (sand.0 + 1, sand.1 + 1) !in c'.tiles
    ensures Fall(c, partTwo, sand, fuel) == Fall(c', partTwo, (sand.0 + 1, sand.1 + 1), fuel - 1)
  {
    assert FallStep(c, partTwo, sand) == Moved(c', (sand.0 + 1, sand.1 + 1));
  }

  /** A grain blocked on all three cells below rests where it is, as
      Sand. */
  lemma FallRest(c: CaveState, partTwo: bool, sand: Loc, c': CaveState, fuel: nat)
    requires WidensTo(c, partTwo, sand, c') && sand.0 >= 1 && fuel >= 1
    requires Settled(c'.tiles, sand)
    ensures Fall(c, partTwo, sand, fuel) == (Rest(sand), CaveState(c'.tiles[sand := Sand], c'.maxY, c'.minX, c'.maxX))
  {
    assert FallStep(c, partTwo, sand) == Stopped(Rest(sand), CaveState(c'.tiles[sand := Sand], c'.maxY, c'.minX, c'.maxX));
  }

  /** A grain whose next cell is Void falls into the abyss in part one
      and panics in part two, leaving the cave as it was. */
  lemma FallIntoVoid(c: CaveState, partTwo: bool, sand: Loc, c': CaveState, n: Loc, fuel: nat)
    requires WidensTo(c, partTwo, sand, c') && fuel >= 1
    requires NextLoc(c'.tiles, sand) == Ok(Some(n)) && n in c'.tiles && c'.tiles[n] == Void
    ensures Fall(c, partTwo, sand, fuel) == (if partTwo then Panicked else Fell, c')
  {
  }

  /** The loop of `run` with `grains` drops left and `count` grains at
      rest so far: a grain that falls ends it with the count, a grain that
      rests adds one and ends it once the source is sand. `None` where a
      drop panics or either bound runs out. */
  function Pour(c: CaveState, partTwo: bool, fuel: nat, grains: nat, count: nat): (Option<nat>, CaveState)
    decreases grains
  {
    if grains == 0 then (None, c)
    else
      var (d, c') := Fall(c, partTwo, (500, 0), fuel);
      match d
      case Fell => (Some(count), c')
      case Rest(_) =>
        if (500, 0) in c'.tiles && c'.tiles[(500, 0)] == Sand then (Some(count + 1), c')
        else Pour(c', partTwo, fuel, grains - 1, count + 1)
      case _ => (None, c')
  }

  /** `run`: the cave `parse_input` builds, then the grains poured into it
      until one falls or the source is covered; `fuel` bounds both the
      grains and each grain's moves. */
  function SandAnswer(input: string, partTwo: bool, fuel: nat): Option<nat>
  {
    match CaveOf(input, partTwo)
    case None => None
    case Some(c) => Pour(c, partTwo, fuel, fuel, 0).0
  }

  function SandCount(tiles: map<Loc, Tile>): nat
  {
    |set p | p in tiles && tiles[p] == Sand|
  }

  /** Turning one non-sand cell into sand adds one grain to the count. */
  lemma SandCountAdd(tiles: map<Loc, Tile>, loc: Loc)
    requires loc !in tiles || tiles[loc] != Sand
    ensures SandCount(tiles[loc := Sand]) == SandCount(tiles) + 1
  {
    var before := set p | p in tiles && tiles[p] == Sand;
    var t := tiles[loc := Sand];
    var after := set p | p in t && t[p] == Sand;
    assert after == before + {loc};
  }

  /** Nothing lies below row `y`, and no sand on it: the part-two floor
      is the lowest row, and only rock reaches it. */
  ghost predicate Floored(tiles: map<Loc, Tile>, y: int)
  {
    forall p :: p in tiles ==> p.1 <= y && (tiles[p] == Sand ==> p.1 < y)
  }

  /** A grain coming to rest at `loc` while everything else keeps its tile
      or becomes rock on row `y` adds exactly one grain to the count when
      no sand lay on that row. */
  lemma SandCountFloor(before: map<Loc, Tile>, after: map<Loc, Tile>, loc: Loc, y: int)
    requires forall p :: p in before ==> p in after
    requires forall p :: p in after && p != loc ==> (p in before && after[p] == before[p]) || (p.1 == y && after[p] == Rock)
    requires forall p :: p in before && before[p] == Sand ==> p.1 != y
    requires loc in after && after[loc] == Sand
    requires loc !in before || before[loc] != Sand
    ensures SandCount(after) == SandCount(before) + 1
  {
    var b := set p | p in before && before[p] == Sand;
    var a := set p | p in after && after[p] == Sand;
    assert a == b + {loc};
  }

  /** A grain resting at the source or on settled ground keeps the cave
      floored. */
  lemma FlooredStep(before: map<Loc, Tile>, after: map<Loc, Tile>, loc: Loc, y: int)
    requires Floored(before, y) && y > 0
    requires forall p :: p in after && p != loc ==> (p in before && after[p] == before[p]) || (p.1 == y && after[p] == Rock)
    requires loc == (500, 0) || (loc.0 >= 1 && Settled(after, loc))
    ensures Floored(after, y)
  {
    if loc != (500, 0) {
      assert (loc.0, loc.1 + 1) in after;
    }
  }

  /** How far a drop that started in the cave `c0` has changed it in the
      cave `c`: `max_y` kept, the extents kept in part one and only
      widened in part two, and no tile lost or changed but floor rock
      added. */
  ghost predicate Widened(c0: CaveState, c: CaveState, partTwo: bool)
  {
    c.maxY == c0.maxY
    && (!partTwo ==> c == c0)
    && (partTwo ==> c.minX <= c0.minX && c.maxX >= c0.maxX)
    && (forall p :: p in c0.tiles ==> p in c.tiles)
    && (forall p :: p in c.tiles ==> (p in c0.tiles && c.tiles[p] == c0.tiles[p]) || (p.1 == c.maxY && c.tiles[p] == Rock))
  }

  /** What a drop with outcome `r`, started in the cave `c0` and ending
      in `c`, has done: the floor alone may grow (part two only), a
      resting grain lies in a cell that was free and cannot move, and
      only part one falls. */
  ghost predicate Dropped(c0: CaveState, partTwo: bool, r: Drop, c: CaveState)
  {
    c.maxY == c0.maxY
    && (!partTwo ==> c.minX == c0.minX && c.maxX == c0.maxX)
    && (!partTwo && r.Rest? ==> c.tiles == c0.tiles[r.loc := Sand])
    && (!partTwo && !r.Rest? ==> c.tiles == c0.tiles)
    && (r.Fell? ==> !partTwo)
    && (r.Rest? ==> r.loc == (500, 0) || r.loc !in c0.tiles || c0.tiles[r.loc] == Void)
    && (r.Rest? ==> r.loc in c.tiles && c.tiles[r.loc] == Sand)
    && (r.Rest? && r.loc != (500, 0) ==> r.loc.0 >= 1 && Settled(c.tiles, r.loc))
    && (partTwo ==> c.minX <= c0.minX && c.maxX >= c0.maxX)
    && (forall p :: p in c0.tiles ==> p in c.tiles)
    && (forall p :: p in c.tiles && !(r.Rest? && p == r.loc) ==>
          (p in c0.tiles && c.tiles[p] == c0.tiles[p]) || (p.1 == c.maxY && c.tiles[p] == Rock))
  }

  /** One pass of the loop keeps a moving grain on cells that were free,
      and a pass that ends the drop leaves it as `Dropped` says. */
  lemma StepFrame(c0: CaveState, c: CaveState, partTwo: bool, sand: Loc)
    requires sand.1 >= 0 && Widened(c0, c, partTwo)
    requires sand != (500, 0) ==> sand !in c0.tiles || c0.tiles[sand] == Void
    ensures match FallStep(c, partTwo, sand)
      case Moved(c1, n) =>
        n.1 >= 1 && Widened(c0, c1, partTwo) && (n !in c0.tiles || c0.tiles[n] == Void)
      case Stopped(d, c1) => Dropped(c0, partTwo, d, c1)
  {
    var w := if partTwo then Widen(c, sand) else Some(c);
    if w.Some? {
      var c1 := w.value;
      assert Widened(c0, c1, partTwo);
      if NextLoc(c1.tiles, sand) == Ok(None) {
        var t := c1.tiles[sand := Sand];
        assert forall q :: q != sand ==> ProbeAt(t, q) == ProbeAt(c1.tiles, q);
      }
    }
  }

  /** A whole drop from a cell that was free leaves the cave as
      `Dropped` says. */
  lemma {:induction false} FallFrame(c0: CaveState, c: CaveState, partTwo: bool, sand: Loc, fuel: nat)
    requires sand.1 >= 0 && Widened(c0, c, partTwo)
    requires sand != (500, 0) ==> sand !in c0.tiles || c0.tiles[sand] == Void
    ensures Dropped(c0, partTwo, Fall(c, partTwo, sand, fuel).0, Fall(c, partTwo, sand, fuel).1)
    decreases fuel
  {
    if fuel > 0 {
      StepFrame(c0, c, partTwo, sand);
      match FallStep(c, partTwo, sand)
      case Stopped(_, _) =>
      case Moved(c1, n) => FallFrame(c0, c1, partTwo, n, fuel - 1);
    }
  }

  /** A grain that comes to rest adds one Sand tile and, in part two,
      leaves the cave floored. */
  lemma RestCount(c: CaveState, partTwo: bool, loc: Loc, c1: CaveState)
    requires Dropped(c, partTwo, Rest(loc), c1)
    requires (500, 0) !in c.tiles || c.tiles[(500, 0)] != Sand
    requires partTwo ==> c.maxY > 0 && Floored(c.tiles, c.maxY)
    ensures SandCount(c1.tiles) == SandCount(c.tiles) + 1
    ensures partTwo ==> Floored(c1.tiles, c1.maxY)
  {
    if !partTwo {
      SandCountAdd(c.tiles, loc);
    } else {
      FlooredStep(c.tiles, c1.tiles, loc, c.maxY);
      SandCountFloor(c.tiles, c1.tiles, loc, c.maxY);
    }
  }

  /** What grains poured into the cave `c`, counted from `count` on,
      have done when the pour answers `r` with the cave `c'`: `max_y`
      stays; in part two an answer means the source is covered; and,
      when the source was not sand (and, in part two, the cave was
      floored), the answer less `count` is the number of new Sand
      tiles. */
  ghost predicate Poured(c: CaveState, partTwo: bool, count: nat, r: Option<nat>, c': CaveState)
  {
    c'.maxY == c.maxY
    && (partTwo && r.Some? ==> (500, 0) in c'.tiles && c'.tiles[(500, 0)] == Sand)
    && (r.Some? && ((500, 0) !in c.tiles || c.tiles[(500, 0)] != Sand)
        && (partTwo ==> c.maxY > 0 && Floored(c.tiles, c.maxY)) ==>
          r.value >= count && SandCount(c'.tiles) == SandCount(c.tiles) + (r.value - count))
  }

  /** Every pour leaves the cave as `Poured` says. */
  lemma {:induction false} PourCount(c: CaveState, partTwo: bool, fuel: nat, grains: nat, count: nat)
    ensures Poured(c, partTwo, count, Pour(c, partTwo, fuel, grains, count).0, Pour(c, partTwo, fuel, grains, count).1)
    decreases grains
  {
    if grains > 0 {
      FallFrame(c, c, partTwo, (500, 0), fuel);
      var (d, c1) := Fall(c, partTwo, (500, 0), fuel);
      if d.Rest? {
        var counts := ((500, 0) !in c.tiles || c.tiles[(500, 0)] != Sand) && (partTwo ==> c.maxY > 0 && Floored(c.tiles, c.maxY));
        if counts {
          RestCount(c, partTwo, d.loc, c1);
        }
        if !((500, 0) in c1.tiles && c1.tiles[(500, 0)] == Sand) {
          PourCount(c1, partTwo, fuel, grains - 1, count + 1);
        }
      }
    }
  }

  class Cave {
    var tiles: map<Loc, Tile>
    var maxY: int
    var minX: int
    var maxX: int
    const source: Loc := (500, 0)

    function State(): CaveState
      reads this
    {
      CaveState(tiles, maxY, minX, maxX)
    }

    constructor (tiles: map<Loc, Tile>, maxY: int, minX: int, maxX: int)
      ensures this.tiles == tiles && this.maxY == maxY && this.minX == minX && this.maxX == maxX
    {
      this.tiles := tiles;
      this.maxY := maxY;
      this.minX := minX;
      this.maxX := maxX;
    }

    /** `extend_left`: rock on the floor row for the `num` columns left of
        `min_x`, which moves left by `num`. */
    method ExtendLeft(num: nat)
      requires num <= minX
      modifies this
      ensures minX == old(minX) - num && maxX == old(maxX) && maxY == old(maxY)
      ensures tiles == WithFloor(old(tiles), maxY, minX, old(minX))
    {
      for x := minX - num to minX
        invariant minX == old(minX) && maxX == old(maxX) && maxY == old(maxY)
        invariant tiles == WithFloor(old(tiles), maxY, old(minX) - num, x)
      {
        tiles := tiles[(x, maxY) := Rock];
      }
      minX := minX - num;
    }

    /** `extend_right`: rock on the floor row from `max_x` to `max_x + num`,
        both included; `max_x` moves right by `num`. */
    method ExtendRight(num: nat)
      modifies this
      ensures maxX == old(maxX) + num && minX == old(minX) && maxY == old(maxY)
      ensures tiles == WithFloor(old(tiles), maxY, old(maxX), maxX + 1)
    {
      for x := maxX to maxX + num + 1
        invariant minX == old(minX) && maxX == old(maxX) && maxY == old(maxY)
        invariant tiles == WithFloor(old(tiles), maxY, old(maxX), x)
      {
        tiles := tiles[(x, maxY) := Rock];
      }
      maxX := maxX + num;
    }

    /** The top of `drop_sand`'s loop in part two: the floor widened as
        `Widen` says, or `false` where a subtraction underflows, with
        nothing changed. */
    method Widening(sand: Loc) returns (ok: bool)
      modifies this
      ensures ok == Widen(old(State()), sand).Some?
      ensures ok ==> State() == Widen(old(State()), sand).value
      ensures !ok ==> State() == old(State())
    {
      if sand.0 < minX {
        return false;
      }
      if sand.0 - minX <= 2 {
        if minX < 2 {
          return false;
        }
        ExtendLeft(2);
      } else {
        if maxX < sand.0 {
          return false;
        }
        if maxX - sand.0 <= 2 {
          ExtendRight(2);
        }
      }
      return true;
    }

    /** `drop_sand`, with at most `fuel` moves: the grain starts at the
        source and goes as `Fall` says. In part one nothing but the
        resting cell changes; in part two the floor may also grow, and
        every other cell keeps its tile. */
    method DropSand(partTwo: bool, fuel: nat) returns (r: Drop)
      modifies this
      ensures (r, State()) == Fall(old(State()), partTwo, source, fuel)
      ensures maxY == old(maxY)
      ensures !partTwo ==> minX == old(minX) && maxX == old(maxX)
      ensures !partTwo && r.Rest? ==> tiles == old(tiles)[r.loc := Sand]
      ensures !partTwo && !r.Rest? ==> tiles == old(tiles)
      ensures r.Fell? ==> !partTwo
      ensures r.Rest? ==> (r.loc == source || r.loc !in old(tiles) || old(tiles)[r.loc] == Void)
      ensures r.Rest? ==> r.loc in tiles && tiles[r.loc] == Sand
      ensures r.Rest? && r.loc != source ==> r.loc.0 >= 1 && Settled(tiles, r.loc)
      ensures partTwo ==> minX <= old(minX) && maxX >= old(maxX)
      ensures forall p :: p in old(tiles) ==> p in tiles
      ensures forall p :: p in tiles && !(r.Rest? && p == r.loc) ==>
        (p in old(tiles) && tiles[p] == old(tiles)[p]) || (p.1 == maxY && tiles[p] == Rock)
    {
      ghost var start := State();
      r := Descend(partTwo, fuel);
      FallFrame(start, start, partTwo, source, fuel);
      assert Dropped(start, partTwo, r, State());
    }

    /** The loop of `drop_sand`: the grain moves from the source as
        `Fall` moves it, one `FallStep` per pass. */
    method Descend(partTwo: bool, fuel: nat) returns (r: Drop)
      modifies this
      ensures (r, State()) == Fall(old(State()), partTwo, source, fuel)
    {
      ghost var start := State();
      var sand := source;
      var steps := 0;
      while true
        invariant steps <= fuel
        invariant Fall(start, partTwo, source, fuel) == Fall(State(), partTwo, sand, fuel - steps)
        decreases fuel - steps
      {
        if steps == fuel {
          r := OutOfFuel;
          break;
        }
        ghost var c, at := State(), sand;
        steps := steps + 1;
        if partTwo {
          var widened := Widening(sand);
          if !widened {
            r := Panicked;
            break;
          }
        }
        var next := NextLoc(tiles, sand);
        if next.Err? {
          r := Panicked;
          break;
        }
        if next.value.None? {
          tiles := tiles[sand := Sand];
          r := Rest(sand);
          break;
        }
        sand := next.value.value;
        if sand in tiles && tiles[sand] == Void {
          r := if partTwo then Panicked else Fell;
          break;
        }
        assert FallStep(c, partTwo, at) == Moved(State(), sand);
      }
    }

    /** `run`: grains are dropped until one falls into the abyss or the
        source is covered, and the grains that came to rest are counted:
        the answer and the cave afterwards are those of `Pour`, with
        `fuel` grains of `fuel` moves each. `None` where a drop panics or
        runs out of fuel. The count is the number of new Sand tiles; in
        part two the run ends exactly when the source is covered. */
    method Run(partTwo: bool, fuel: nat) returns (r: Option<nat>)
      modifies this
      ensures (r, State()) == Pour(old(State()), partTwo, fuel, fuel, 0)
      ensures maxY == old(maxY)
      ensures !partTwo && r.Some? && (source !in old(tiles) || old(tiles)[source] != Sand) ==>
        SandCount(tiles) == SandCount(old(tiles)) + r.value
      ensures partTwo && r.Some? ==> source in tiles && tiles[source] == Sand
      ensures partTwo && r.Some? && maxY > 0 && Floored(old(tiles), maxY) && (source !in old(tiles) || old(tiles)[source] != Sand)
        ==> SandCount(tiles) == SandCount(old(tiles)) + r.value
    {
      ghost var start := State();
      var c := 0;
      r := None;
      while c < fuel
        invariant c <= fuel
        invariant Pour(start, partTwo, fuel, fuel, 0) == Pour(State(), partTwo, fuel, fuel - c, c)
      {
        var d := DropSand(partTwo, fuel);
        if d.Fell? {
          r := Some(c);
          break;
        }
        if !d.Rest? {
          break;
        }
        c := c + 1;
        if source in tiles && tiles[source] == Sand {
          r := Some(c);
          break;
        }
      }
      assert (r, State()) == Pour(start, partTwo, fuel, fuel, 0);
      PourCount(start, partTwo, fuel, fuel, 0);
      assert Poured(start, partTwo, 0, r, State());
    }
  }

  /** `parse_input`: the rock read in place, then the source and the
      floor or the Void row, then the cave. */
  method ParseInput(input: string, partTwo: bool) returns (r: Option<Cave>)
    ensures r.None? <==> CaveOf(input, partTwo).None?
    ensures r.Some? ==>
      fresh(r.value) && r.value.source == (500, 0)
      && r.value.State() == CaveOf(input, partTwo).value
  {
    var parts := ReadCave(input, partTwo);
    if parts.None? {
      return None;
    }
    var CaveState(tiles, maxY, minX, maxX) := parts.value;
    var cave := new Cave(tiles, maxY, minX, maxX);
    return Some(cave);
  }

  /** `run`: the cave is parsed, then grains are poured into it; the
      answer is `SandAnswer`. */
  method Simulate(input: string, partTwo: bool, fuel: nat) returns (r: Option<nat>)
    ensures r == SandAnswer(input, partTwo, fuel)
  {
    var cave := ParseInput(input, partTwo);
    if cave.None? {
      return None;
    }
    r := cave.value.Run(partTwo, fuel);
  }

  /** The body of `parse_input` up to building the cave: its tiles,
      max_y, min_x and max_x. */
  method ReadCave(input: string, partTwo: bool) returns (r: Option<CaveState>)
    ensures r == CaveOf(input, partTwo)
  {
    var rocks := ReadRocks(Lines(input));
    if rocks.None? {
      return None;
    }
    var (rock, (maxY, minX, maxX)) := rocks.value;
    if minX == 0 {
      return None;
    }
    var tiles := rock[(500, 0) := Source];
    if partTwo {
      var floored := LayFloor(tiles, maxY + 2, minX - 1, maxX + 1);
      return Some(CaveState(floored, maxY + 2, minX, maxX));
    } else {
      var voided := LayVoids(tiles, maxY, minX - 1, maxX + 1);
      return Some(CaveState(voided, maxY, minX, maxX));
    }
  }

  /** The line loop of `parse_input`. */
  method ReadRocks(lines: seq<string>) returns (r: Option<(map<Loc, Tile>, (int, int, int))>)
    ensures r == RocksOf(lines)
  {
    var tiles: map<Loc, Tile> := map[];
    var ext := (0, UsizeMax, 0);
    for i := 0 to |lines|
      invariant RocksOf(lines[..i]) == Some((tiles, ext))
    {
      assert lines[..i + 1][..i] == lines[..i];
      var path := PathOf(lines[i]);
      if path.None? {
        NoRocksAfterPanic(lines, i + 1);
        return None;
      }
      tiles, ext := ReadPath(tiles, ext, path.value);
    }
    assert lines[..|lines|] == lines;
    return Some((tiles, ext));
  }

  /** The segment loop of `parse_input` for one path. */
  method ReadPath(tiles: map<Loc, Tile>, ext: (int, int, int), pts: seq<Loc>)
    returns (tiles': map<Loc, Tile>, ext': (int, int, int))
    ensures var n := if |pts| < 2 then 0 else |pts| - 1;
      tiles' == DrawnPath(tiles, pts, n) && ext' == ExtentsPath(ext, pts, n)
  {
    var n := if |pts| < 2 then 0 else |pts| - 1;
    tiles', ext' := tiles, ext;
    for j := 0 to n
      invariant tiles' == DrawnPath(tiles, pts, j)
      invariant ext' == ExtentsPath(ext, pts, j)
    {
      tiles', ext' := ReadSegment(tiles, ext, pts, j, tiles', ext');
    }
  }

  /** One pass of that loop: segment `j` updates the extents with both of
      its ends and is drawn. */
  method ReadSegment(tiles0: map<Loc, Tile>, ext0: (int, int, int), pts: seq<Loc>, j: nat,
                     tiles: map<Loc, Tile>, ext: (int, int, int))
    returns (tiles': map<Loc, Tile>, ext': (int, int, int))
    requires j + 1 < |pts| && tiles == DrawnPath(tiles0, pts, j) && ext == ExtentsPath(ext0, pts, j)
    ensures tiles' == DrawnPath(tiles0, pts, j + 1) && ext' == ExtentsPath(ext0, pts, j + 1)
  {
    var (left, right) := (pts[j], pts[j + 1]);
    var (maxY, minX, maxX) := ext;
    maxY := UpdateMax(maxY, left.1);
    maxY := UpdateMax(maxY, right.1);
    minX := UpdateMin(minX, left.0);
    minX := UpdateMin(minX, right.0);
    maxX := UpdateMax(maxX, left.0);
    maxX := UpdateMax(maxX, right.0);
    ext' := (maxY, minX, maxX);
    tiles' := DrawSegment(tiles, left, right);
  }

  /** Part two's floor: rock for `lo <= x < hi` on row `y`. */
  method LayFloor(tiles: map<Loc, Tile>, y: int, lo: int, hi: int) returns (r: map<Loc, Tile>)
    ensures r == WithFloor(tiles, y, lo, hi)
  {
    r := tiles;
    for x := lo to UpdateMax(lo, hi)
      invariant r == WithFloor(tiles, y, lo, x)
    {
      r := r[(x, y) := Rock];
    }
    assert r == WithFloor(tiles, y, lo, hi);
  }

  /** Part one's Void row: Void for `lo <= x <= hi` on row `y` where empty. */
  method LayVoids(tiles: map<Loc, Tile>, y: int, lo: int, hi: int) returns (r: map<Loc, Tile>)
    ensures r == WithVoids(tiles, y, lo, hi)
  {
    r := tiles;
    for x := lo to UpdateMax(lo, hi + 1)
      invariant r == WithVoids(tiles, y, lo, x - 1)
    {
      if (x, y) !in r {
        r := r[(x, y) := Void];
      }
    }
    assert r == WithVoids(tiles, y, lo, hi);
  }

  lemma {:induction false} NoRocksAfterPanic(lines: seq<string>, i: nat)
    requires i <= |lines| && RocksOf(lines[..i]).None?
    ensures RocksOf(lines).None?
    decreases |lines|
  {
    if i < |lines| {
      assert lines[..|lines| - 1][..i] == lines[..i];
      NoRocksAfterPanic(lines[..|lines| - 1], i);
    } else {
      assert lines[..i] == lines;
    }
  }

  /** The rock read holds nothing but rock, and max_y never drops below
      its starting 0. */
  lemma {:induction false} RocksOfShape(lines: seq<string>)
    requires RocksOf(lines).Some?
    ensures var (tiles, ext) := RocksOf(lines).value;
      ext.0 >= 0 && ext.1 >= 0 && forall p :: p in tiles ==> tiles[p] == Rock
    decreases |lines|
  {
    if |lines| > 0 {
      RocksOfShape(lines[..|lines| - 1]);
      var (tiles, ext) := RocksOf(lines[..|lines| - 1]).value;
      var pts := PathOf(lines[|lines| - 1]).value;
      PathOfNonNegative(lines[|lines| - 1]);
      var n := if |pts| < 2 then 0 else |pts| - 1;
      ExtentsBound(ext, pts, n);
      DrawnPathRock(tiles, pts, n);
    }
  }

  /** Drawing segments whose corners lie at or above row `y` onto tiles at
      or above it keeps every tile there. */
  lemma DrawnPathAbove(tiles: map<Loc, Tile>, pts: seq<Loc>, n: nat, y: int)
    requires n < |pts| || n == 0
    requires forall p :: p in tiles ==> p.1 <= y
    requires forall i :: 0 <= i < n + 1 && n > 0 ==> pts[i].1 <= y
    ensures forall p :: p in DrawnPath(tiles, pts, n) ==> p.1 <= y
  {
    forall p | p in DrawnPath(tiles, pts, n)
      ensures p.1 <= y
    {
      DrawnPathMeaning(tiles, pts, n, p);
      if p !in tiles {
        var i :| 0 <= i < n && InBox(p, pts[i], pts[i + 1]);
        assert pts[i].1 <= y && pts[i + 1].1 <= y;
      }
    }
  }

  /** No rock read lies below max_y. */
  lemma {:induction false} RocksOfAbove(lines: seq<string>)
    requires RocksOf(lines).Some?
    ensures forall p :: p in RocksOf(lines).value.0 ==> p.1 <= RocksOf(lines).value.1.0
    decreases |lines|
  {
    if |lines| > 0 {
      var front := lines[..|lines| - 1];
      RocksOfAbove(front);
      var read := RocksOf(front).value;
      var pts := PathOf(lines[|lines| - 1]).value;
      var n := if |pts| < 2 then 0 else |pts| - 1;
      PathAbove(read.0, read.1, pts, n);
      assert RocksOf(lines) == Some((DrawnPath(read.0, pts, n), ExtentsPath(read.1, pts, n)));
    }
  }

  /** Reading one path onto tiles at or above `max_y` keeps them at or
      above the updated `max_y`. */
  lemma PathAbove(tiles: map<Loc, Tile>, ext: (int, int, int), pts: seq<Loc>, n: nat)
    requires n < |pts| || n == 0
    requires forall p :: p in tiles ==> p.1 <= ext.0
    ensures forall p :: p in DrawnPath(tiles, pts, n) ==> p.1 <= ExtentsPath(ext, pts, n).0
  {
    ExtentsBound(ext, pts, n);
    DrawnPathAbove(tiles, pts, n, ExtentsPath(ext, pts, n).0);
  }

  /** The part-two cave `parse_input` hands over is floored two rows below
      the lowest rock, with no sand yet: what `Run` needs to count the
      grains in part two. */
  lemma CaveOfFloored(input: string)
    requires CaveOf(input, true).Some?
    ensures var CaveState(tiles, maxY, minX, maxX) := CaveOf(input, true).value;
      maxY > 0 && Floored(tiles, maxY) && (500, 0) in tiles && tiles[(500, 0)] != Sand
  {
    var lines := Lines(input);
    RocksOfShape(lines);
    RocksOfAbove(lines);
    CaveOfShape(input, true);
    var (tiles, (maxY, minX, maxX)) := RocksOf(lines).value;
    FloorMeaning(tiles[(500, 0) := Source], maxY + 2, minX - 1, maxX + 1);
  }

  /** Parsed points are never negative. */
  lemma PathOfNonNegative(line: string)
    requires PathOf(line).Some?
    ensures forall i :: 0 <= i < |PathOf(line).value| ==> PathOf(line).value[i].0 >= 0
  {
    var pts := PathOf(line).value;
    var parts := SplitOn(line, " -> ");
    forall i | 0 <= i < |pts|
      ensures pts[i].0 >= 0
    {
      assert ParsePoint(parts[i]) == Some(pts[i]);
    }
  }

  /** Drawing over rock leaves nothing but rock. */
  lemma DrawnPathRock(tiles: map<Loc, Tile>, pts: seq<Loc>, n: nat)
    requires n < |pts| || n == 0
    requires forall p :: p in tiles ==> tiles[p] == Rock
    ensures forall p :: p in DrawnPath(tiles, pts, n) ==> DrawnPath(tiles, pts, n)[p] == Rock
  {
    forall p | p in DrawnPath(tiles, pts, n)
      ensures DrawnPath(tiles, pts, n)[p] == Rock
    {
      DrawnPathMeaning(tiles, pts, n, p);
    }
  }

  /** Part one's cave around rock `tiles`: the source, and Void on the
      lowest rock row wherever the rock leaves room. */
  lemma VoidsShape(tiles: map<Loc, Tile>, maxY: int, minX: int, maxX: int)
    requires maxY >= 0 && forall p :: p in tiles ==> tiles[p] == Rock
    ensures var c := WithVoids(tiles[(500, 0) := Source], maxY, minX - 1, maxX + 1);
      (500, 0) in c && c[(500, 0)] == Source
      && (forall p :: p in c ==> c[p] != Sand)
      && (forall x :: minX - 1 <= x <= maxX + 1 ==> (x, maxY) in c)
      && (forall p :: p in c && c[p] == Void ==> p.1 == maxY)
  {
  }

  /** Part two's cave around rock `tiles`: the source, and a rock floor
      two rows below the lowest rock. */
  lemma FloorShape(tiles: map<Loc, Tile>, maxY: int, minX: int, maxX: int)
    requires maxY >= 0 && forall p :: p in tiles ==> tiles[p] == Rock
    ensures var y := maxY + 2; var c := WithFloor(tiles[(500, 0) := Source], y, minX - 1, maxX + 1);
      (500, 0) in c && c[(500, 0)] == Source
      && (forall p :: p in c ==> c[p] != Sand)
      && (forall x :: minX - 1 <= x <= maxX ==> (x, y) in c && c[(x, y)] == Rock)
  {
    FloorMeaning(tiles[(500, 0) := Source], maxY + 2, minX - 1, maxX + 1);
  }

  /** The cave `parse_input` hands over: min_x at least 1, the source at
      (500, 0), no sand yet, and a bottom row that catches every falling
      grain in the span of the rock: Void (or rock) in part one, a rock
      floor in part two. */
  lemma CaveOfShape(input: string, partTwo: bool)
    requires CaveOf(input, partTwo).Some?
    ensures var CaveState(tiles, maxY, minX, maxX) := CaveOf(input, partTwo).value;
      minX >= 1 && (500, 0) in tiles && tiles[(500, 0)] == Source
      && (forall p :: p in tiles ==> tiles[p] != Sand)
      && (!partTwo ==> forall x :: minX - 1 <= x <= maxX + 1 ==> (x, maxY) in tiles)
      && (!partTwo ==> forall p :: p in tiles && tiles[p] == Void ==> p.1 == maxY)
      && (partTwo ==> maxY >= 2 && forall x :: minX - 1 <= x <= maxX ==> (x, maxY) in tiles && tiles[(x, maxY)] == Rock)
  {
    var lines := Lines(input);
    RocksOfShape(lines);
    var (tiles, (maxY, minX, maxX)) := RocksOf(lines).value;
    if partTwo {
      FloorShape(tiles, maxY, minX, maxX);
    } else {
      VoidsShape(tiles, maxY, minX, maxX);
    }
  }

  /** "x,y" as the input writes a point. */
  function PointText(p: Loc): string
    requires 0 <= p.0 < USizeLimit && 0 <= p.1 < USizeLimit
  {
    NatToString(p.0) + "," + NatToString(p.1)
  }

  /** Each point written out. */
  function PointTexts(pts: seq<Loc>): (ts: seq<string>)
    requires forall i :: 0 <= i < |pts| ==> 0 <= pts[i].0 < USizeLimit && 0 <= pts[i].1 < USizeLimit
    ensures |ts| == |pts|
    ensures forall i :: 0 <= i < |pts| ==> ' ' !in ts[i] && '\n' !in ts[i] && ParsePoint(ts[i]) == Some(pts[i])
  {
    var ts := seq(|pts|, i requires 0 <= i < |pts| => PointText(pts[i]));
    assert forall i :: 0 <= i < |pts| ==> ' ' !in ts[i] && '\n' !in ts[i] && ParsePoint(ts[i]) == Some(pts[i]) by {
      forall i | 0 <= i < |pts|
        ensures ' ' !in ts[i] && '\n' !in ts[i] && ParsePoint(ts[i]) == Some(pts[i])
      {
        ParsePointOf(pts[i].0, pts[i].1);
      }
    }
    ts
  }

  function PathText(pts: seq<Loc>): string
    requires |pts| >= 1 && forall i :: 0 <= i < |pts| ==> 0 <= pts[i].0 < USizeLimit && 0 <= pts[i].1 < USizeLimit
  {
    Join(PointTexts(pts), " -> ")
  }

  /** A path written out as the input writes it reads back as itself. */
  lemma PathOfText(pts: seq<Loc>)
    requires |pts| >= 2 && forall i :: 0 <= i < |pts| ==> 0 <= pts[i].0 < USizeLimit && 0 <= pts[i].1 < USizeLimit
    ensures PathOf(PathText(pts)) == Some(pts)
    ensures '\n' !in PathText(pts)
  {
    var parts := PointTexts(pts);
    SplitOnJoinFree(parts, " -> ");
    ParsePointsAll(parts, pts);
    NoNewlineInJoin(parts, " -> ");
  }

  lemma {:induction false} ParsePointsAll(parts: seq<string>, pts: seq<Loc>)
    requires |parts| == |pts| && forall i :: 0 <= i < |parts| ==> ParsePoint(parts[i]) == Some(pts[i])
    ensures ParsePoints(parts) == Some(pts)
  {
    if |parts| > 0 {
      ParsePointsAll(parts[1..], pts[1..]);
      assert [pts[0]] + pts[1..] == pts;
    }
  }

  lemma {:induction false} NoNewlineInJoin(parts: seq<string>, pat: string)
    requires |parts| >= 1 && '\n' !in pat
    requires forall i :: 0 <= i < |parts| ==> '\n' !in parts[i]
    ensures '\n' !in Join(parts, pat)
    decreases |parts|
  {
    if |parts| > 1 {
      NoNewlineInJoin(parts[1..], pat);
    }
  }

  /** The puzzle's sample as two rock paths, stated point by point:
      498,4 -> 498,6 -> 496,6 and 503,4 -> 502,4 -> 502,9 -> 494,9. */
  predicate SamplePaths(p1: seq<Loc>, p2: seq<Loc>)
  {
    |p1| == 3 && p1[0] == (498, 4) && p1[1] == (498, 6) && p1[2] == (496, 6)
    && |p2| == 4 && p2[0] == (503, 4) && p2[1] == (502, 4) && p2[2] == (502, 9) && p2[3] == (494, 9)
  }

  /** Two paths written one per line read back as themselves. */
  lemma TwoPathLines(p1: seq<Loc>, p2: seq<Loc>)
    requires |p1| >= 2 && forall i :: 0 <= i < |p1| ==> 0 <= p1[i].0 < USizeLimit && 0 <= p1[i].1 < USizeLimit
    requires |p2| >= 2 && forall i :: 0 <= i < |p2| ==> 0 <= p2[i].0 < USizeLimit && 0 <= p2[i].1 < USizeLimit
    ensures var lines := Lines(Join([PathText(p1), PathText(p2)], "\n"));
      |lines| == 2 && PathOf(lines[0]) == Some(p1) && PathOf(lines[1]) == Some(p2)
  {
    PathOfText(p1);
    PathOfText(p2);
    LinesOfJoin([PathText(p1), PathText(p2)]);
  }

  lemma SampleExtents(p1: seq<Loc>, p2: seq<Loc>)
    requires SamplePaths(p1, p2)
    ensures ExtentsPath((0, UsizeMax, 0), p1, 2) == (6, 496, 498)
    ensures ExtentsPath((6, 496, 498), p2, 3) == (9, 494, 503)
  {
    assert ExtentsPath((0, UsizeMax, 0), p1, 1) == (6, 498, 498);
    assert ExtentsPath((6, 496, 498), p2, 1) == (6, 496, 503);
    assert ExtentsPath((6, 496, 498), p2, 2) == (9, 496, 503);
  }

  /** One more line of at least two points draws its path. */
  lemma RocksOfStep(lines: seq<string>, tiles: map<Loc, Tile>, ext: (int, int, int), pts: seq<Loc>)
    requires |lines| > 0 && RocksOf(lines[..|lines| - 1]) == Some((tiles, ext))
    requires PathOf(lines[|lines| - 1]) == Some(pts) && |pts| >= 2
    ensures RocksOf(lines) == Some((DrawnPath(tiles, pts, |pts| - 1), ExtentsPath(ext, pts, |pts| - 1)))
  {
  }

  /** One line of a path draws that path. */
  lemma RocksOfOne(lines: seq<string>, p1: seq<Loc>)
    requires |lines| == 1 && PathOf(lines[0]) == Some(p1) && |p1| >= 2
    ensures RocksOf(lines) == Some((DrawnPath(map[], p1, |p1| - 1), ExtentsPath((0, UsizeMax, 0), p1, |p1| - 1)))
  {
    assert lines[..0] == [];
    RocksOfStep(lines, map[], (0, UsizeMax, 0), p1);
  }

  /** Two lines of paths draw the first path, then the second. */
  lemma RocksOfTwo(lines: seq<string>, p1: seq<Loc>, p2: seq<Loc>)
    requires |lines| == 2 && PathOf(lines[0]) == Some(p1) && PathOf(lines[1]) == Some(p2)
    requires |p1| >= 2 && |p2| >= 2
    ensures RocksOf(lines) == Some((DrawnPath(DrawnPath(map[], p1, |p1| - 1), p2, |p2| - 1),
      ExtentsPath(ExtentsPath((0, UsizeMax, 0), p1, |p1| - 1), p2, |p2| - 1)))
  {
    RocksOfOne(lines[..1], p1);
    RocksOfStep(lines, DrawnPath(map[], p1, |p1| - 1), ExtentsPath((0, UsizeMax, 0), p1, |p1| - 1), p2);
  }

  /** The rock the sample draws: its two paths, one after the other. */
  lemma SampleRocks(lines: seq<string>, p1: seq<Loc>, p2: seq<Loc>)
    requires SamplePaths(p1, p2)
    requires |lines| == 2 && PathOf(lines[0]) == Some(p1) && PathOf(lines[1]) == Some(p2)
    ensures RocksOf(lines) == Some((DrawnPath(DrawnPath(map[], p1, 2), p2, 3), (9, 494, 503)))
  {
    SampleExtents(p1, p2);
    RocksOfTwo(lines, p1, p2);
  }

  /** `parse_input` on the sample (part one): max_y 9, min_x 494,
      max_x 503, and Void just past both ends of the lowest row. */
  lemma SampleCave(input: string, p1: seq<Loc>, p2: seq<Loc>)
    requires SamplePaths(p1, p2) && input == Join([PathText(p1), PathText(p2)], "\n")
    ensures CaveOf(input, false).Some?
    ensures var CaveState(tiles, maxY, minX, maxX) := CaveOf(input, false).value;
      maxY == 9 && minX == 494 && maxX == 503
      && (493, 9) in tiles && tiles[(493, 9)] == Void && (504, 9) in tiles && tiles[(504, 9)] == Void
  {
    SampleCaves(input, p1, p2);
  }

  /** The rock the two sample paths draw. */
  const SampleRock: map<Loc, Tile> :=
    map[
      (498, 4) := Rock, (498, 5) := Rock, (498, 6) := Rock, (497, 6) := Rock, (496, 6) := Rock, (503, 4) := Rock,
      (502, 4) := Rock, (502, 5) := Rock, (502, 6) := Rock, (502, 7) := Rock, (502, 8) := Rock, (502, 9) := Rock,
      (494, 9) := Rock, (495, 9) := Rock, (496, 9) := Rock, (497, 9) := Rock, (498, 9) := Rock, (499, 9) := Rock,
      (500, 9) := Rock, (501, 9) := Rock
    ]

  /** `SampleRock` cell by cell: the five segments of the two paths. */
  lemma SampleRockCells(p: Loc)
    ensures p in SampleRock <==>
      (p.0 == 498 && 4 <= p.1 <= 6) || (p.1 == 6 && 496 <= p.0 <= 498) || (p.1 == 4 && 502 <= p.0 <= 503)
      || (p.0 == 502 && 4 <= p.1 <= 9) || (p.1 == 9 && 494 <= p.0 <= 502)
    ensures p in SampleRock ==> SampleRock[p] == Rock
  {
  }

  /** A cell lies on a segment of the sample paths exactly when it is
      in `SampleRock`. */
  lemma SampleSegments(p1: seq<Loc>, p2: seq<Loc>, p: Loc)
    requires SamplePaths(p1, p2)
    ensures p in SampleRock <==>
      (exists i :: 0 <= i < 2 && InBox(p, p1[i], p1[i + 1])) || (exists i :: 0 <= i < 3 && InBox(p, p2[i], p2[i + 1]))
  {
    SampleRockCells(p);
    if InBox(p, p1[0], p1[1]) {
      assert InBox(p, p1[0], p1[0 + 1]);
    } else if InBox(p, p1[1], p1[2]) {
      assert InBox(p, p1[1], p1[1 + 1]);
    } else if InBox(p, p2[0], p2[1]) {
      assert InBox(p, p2[0], p2[0 + 1]);
    } else if InBox(p, p2[1], p2[2]) {
      assert InBox(p, p2[1], p2[1 + 1]);
    } else if InBox(p, p2[2], p2[3]) {
      assert InBox(p, p2[2], p2[2 + 1]);
    }
  }

  /** The two sample paths draw exactly `SampleRock`. */
  lemma SampleRockDrawn(p1: seq<Loc>, p2: seq<Loc>)
    requires SamplePaths(p1, p2)
    ensures DrawnPath(DrawnPath(map[], p1, 2), p2, 3) == SampleRock
  {
    var d1 := DrawnPath(map[], p1, 2);
    var d := DrawnPath(d1, p2, 3);
    forall p
      ensures p in d <==> p in SampleRock
      ensures p in d ==> d[p] == Rock
    {
      DrawnPathMeaning(map[], p1, 2, p);
      DrawnPathMeaning(d1, p2, 3, p);
      SampleSegments(p1, p2, p);
    }
  }

  /** Part one's cave before any grain: the rock, the source, and Void
      where the lowest rock row has no rock from 493 to 504. */
  const SampleCaveOne: CaveState :=
    CaveState(SampleRock[(500, 0) := Source][(493, 9) := Void][(503, 9) := Void][(504, 9) := Void], 9, 494, 503)

  /** Part two's cave before any grain: the rock, the source, and the
      floor on row 11 from 493 to 503. */
  const SampleCaveTwo: CaveState :=
    CaveState(SampleRock[(500, 0) := Source][(493, 11) := Rock][(494, 11) := Rock][(495, 11) := Rock][(496, 11) := Rock][(497, 11) := Rock][(498, 11) := Rock][(499, 11) := Rock][(500, 11) := Rock][(501, 11) := Rock][(502, 11) := Rock][(503, 11) := Rock], 11, 494, 503)

  /** A Void row over a row that is rock except at three cells puts
      Void on those three. */
  lemma VoidRow(t: map<Loc, Tile>)
    requires forall x :: 494 <= x <= 502 ==> (x, 9) in t
    requires (493, 9) !in t && (503, 9) !in t && (504, 9) !in t
    ensures WithVoids(t, 9, 493, 504) == t[(493, 9) := Void][(503, 9) := Void][(504, 9) := Void]
  {
    var r := WithVoids(t, 9, 493, 504);
    var u := t[(493, 9) := Void][(503, 9) := Void][(504, 9) := Void];
    forall p
      ensures p in r <==> p in u
      ensures p in r ==> r[p] == u[p]
    {
      if p.1 == 9 && 493 <= p.0 <= 504 {
        assert p.0 == 493 || p.0 == 503 || p.0 == 504 || 494 <= p.0 <= 502;
      }
    }
  }

  lemma SampleVoids()
    ensures WithVoids(SampleRock[(500, 0) := Source], 9, 493, 504) == SampleCaveOne.tiles
  {
    var t := SampleRock[(500, 0) := Source];
    forall x | 494 <= x <= 502
      ensures (x, 9) in t
    {
      SampleRockCells((x, 9));
    }
    SampleRockCells((493, 9));
    SampleRockCells((503, 9));
    SampleRockCells((504, 9));
    VoidRow(t);
  }

  lemma SampleFloor()
    ensures WithFloor(SampleRock[(500, 0) := Source], 11, 493, 504) == SampleCaveTwo.tiles
  {
    var r := WithFloor(SampleRock[(500, 0) := Source], 11, 493, 504);
    FloorMeaning(SampleRock[(500, 0) := Source], 11, 493, 504);
    forall p
      ensures p in r <==> p in SampleCaveTwo.tiles
      ensures p in r ==> r[p] == SampleCaveTwo.tiles[p]
    {
      SampleRockCells(p);
    }
  }

  /** `parse_input` on the sample builds `SampleCaveOne` in part one and `SampleCaveTwo`
      in part two. */
  lemma SampleCaves(input: string, p1: seq<Loc>, p2: seq<Loc>)
    requires SamplePaths(p1, p2) && input == Join([PathText(p1), PathText(p2)], "\n")
    ensures CaveOf(input, false) == Some(SampleCaveOne)
    ensures CaveOf(input, true) == Some(SampleCaveTwo)
  {
    TwoPathLines(p1, p2);
    SampleRocks(Lines(input), p1, p2);
    SampleRockDrawn(p1, p2);
    SampleVoids();
    SampleFloor();
  }
}

/** The shared library's sparse 2D maze: a map from locations to values
    with four neighbour queries on `(usize, usize)` locations. */
module Maze {
  import opened Wrappers

  datatype MazeError = ImpossibleMove | LocationDoesNotExist

  /** A location `(x, y)`; `y` grows upwards. */
  type Loc = (nat, nat)

  class HashMapMaze<L(==), V> {
    var cells: map<L, V>

    /** `HashMapMaze::new`: no locations. */
    constructor ()
      ensures cells == map[]
    {
      cells := map[];
    }

    /** `add_loc`: insert or overwrite one location. */
    method AddLoc(loc: L, value: V)
      modifies this
      ensures cells == old(cells)[loc := value]
      ensures loc in cells && cells[loc] == value
      ensures forall l :: l != loc ==> (l in cells <==> l in old(cells)) && (l in cells ==> cells[l] == old(cells)[l])
    {
      cells := cells[loc := value];
    }

    /** `get_value_at_loc`. */
    function GetValueAtLoc(loc: L): (r: Result<V, MazeError>)
      reads this
      ensures r.Err? <==> loc !in cells
      ensures r.Err? ==> r.error == LocationDoesNotExist
      ensures r.Ok? ==> loc in cells && r.value == cells[loc]
    {
      if loc in cells then Ok(cells[loc]) else Err(LocationDoesNotExist)
    }
  }

  /** A maze together with the location of its single occupant. */
  class HashMapOccupiedMaze<L(==), V> {
    const maze: HashMapMaze<L, V>
    const loc: L

    /** `from_hash_map_maze`: takes any location, present in the maze or not. */
    constructor FromHashMapMaze(maze: HashMapMaze<L, V>, loc: L)
      ensures this.maze == maze && this.loc == loc
    {
      this.maze := maze;
      this.loc := loc;
    }

    /** `get_value`: the value at the occupant's location; `None` where the
        source's `expect` panics because the location is not a key. */
    function GetValue(): (v: Option<V>)
      reads this, maze
      ensures v.Some? <==> loc in maze.cells
      ensures v.Some? ==> maze.GetValueAtLoc(loc) == Ok(v.value)
    {
      if loc in maze.cells then Some(maze.cells[loc]) else None
    }
  }

  function CellAbove<V>(maze: HashMapMaze<Loc, V>, loc: Loc): (r: Result<Loc, MazeError>)
    reads maze
    ensures r.Ok? <==> (loc.0, loc.1 + 1) in maze.cells
    ensures r.Ok? ==> r.value == (loc.0, loc.1 + 1)
    ensures r.Err? ==> r.error == LocationDoesNotExist
  {
    var other := (loc.0, loc.1 + 1);
    if other in maze.cells then Ok(other) else Err(LocationDoesNotExist)
  }

  function CellBelow<V>(maze: HashMapMaze<Loc, V>, loc: Loc): (r: Result<Loc, MazeError>)
    reads maze
    ensures loc.1 == 0 ==> r == Err(ImpossibleMove)
    ensures loc.1 > 0 ==> (r.Ok? <==> (loc.0, loc.1 - 1) in maze.cells)
    ensures r.Ok? ==> loc.1 > 0 && r.value == (loc.0, loc.1 - 1)
    ensures loc.1 > 0 && r.Err? ==> r.error == LocationDoesNotExist
  {
    if loc.1 == 0 then Err(ImpossibleMove)
    else
      var other := (loc.0, loc.1 - 1);
      if other in maze.cells then Ok(other) else Err(LocationDoesNotExist)
  }

  function CellRight<V>(maze: HashMapMaze<Loc, V>, loc: Loc): (r: Result<Loc, MazeError>)
    reads maze
    ensures r.Ok? <==> (loc.0 + 1, loc.1) in maze.cells
    ensures r.Ok? ==> r.value == (loc.0 + 1, loc.1)
    ensures r.Err? ==> r.error == LocationDoesNotExist
  {
    var other := (loc.0 + 1, loc.1);
    if other in maze.cells then Ok(other) else Err(LocationDoesNotExist)
  }

  function CellLeft<V>(maze: HashMapMaze<Loc, V>, loc: Loc): (r: Result<Loc, MazeError>)
    reads maze
    ensures loc.0 == 0 ==> r == Err(ImpossibleMove)
    ensures loc.0 > 0 ==> (r.Ok? <==> (loc.0 - 1, loc.1) in maze.cells)
    ensures r.Ok? ==> loc.0 > 0 && r.value == (loc.0 - 1, loc.1)
    ensures loc.0 > 0 && r.Err? ==> r.error == LocationDoesNotExist
  {
    if loc.0 == 0 then Err(ImpossibleMove)
    else
      var other := (loc.0 - 1, loc.1);
      if other in maze.cells then Ok(other) else Err(LocationDoesNotExist)
  }

  /** Grid adjacency: one coordinate differs by exactly one. */
  predicate Adjacent(a: Loc, b: Loc)
  {
    (a.0 == b.0 && (a.1 == b.1 + 1 || b.1 == a.1 + 1))
    || (a.1 == b.1 && (a.0 == b.0 + 1 || b.0 == a.0 + 1))
  }

  /** The four queries in the order the solvers try them. */
  function Neighbours<V>(maze: HashMapMaze<Loc, V>, loc: Loc): seq<Result<Loc, MazeError>>
    reads maze
  {
    [CellAbove(maze, loc), CellBelow(maze, loc), CellLeft(maze, loc), CellRight(maze, loc)]
  }

  /** Every answer a query gives is a key adjacent to the start, and every
      adjacent key is the answer of one of the four queries. */
  lemma NeighboursAreAdjacentKeys<V>(maze: HashMapMaze<Loc, V>, loc: Loc, other: Loc)
    ensures (exists k :: 0 <= k < 4 && Neighbours(maze, loc)[k] == Ok(other))
        <==> other in maze.cells && Adjacent(loc, other)
  {
    var ns := Neighbours(maze, loc);
    if other in maze.cells && Adjacent(loc, other) {
      if other == (loc.0, loc.1 + 1) { assert ns[0] == Ok(other); }
      else if other.0 == loc.0 { assert ns[1] == Ok(other); }
      else if other == (loc.0 + 1, loc.1) { assert ns[3] == Ok(other); }
      else { assert ns[2] == Ok(other); }
    }
  }

  /** Going above and then below (or right and then left) returns to a start
      that is itself a key. */
  lemma {:induction false} QueriesAreInverse<V>(maze: HashMapMaze<Loc, V>, loc: Loc)
    requires loc in maze.cells
    ensures CellAbove(maze, loc).Ok? ==> CellBelow(maze, CellAbove(maze, loc).value) == Ok(loc)
    ensures CellBelow(maze, loc).Ok? ==> CellAbove(maze, CellBelow(maze, loc).value) == Ok(loc)
    ensures CellRight(maze, loc).Ok? ==> CellLeft(maze, CellRight(maze, loc).value) == Ok(loc)
    ensures CellLeft(maze, loc).Ok? ==> CellRight(maze, CellLeft(maze, loc).value) == Ok(loc)
  {
  }

  /** The library's 10×10 grid example. */
  lemma TenByTenGrid(maze: HashMapMaze<Loc, string>)
    requires forall x: nat, y: nat :: (x, y) in maze.cells <==> x < 10 && y < 10
    ensures CellAbove(maze, (5, 5)) == Ok((5, 6)) && CellBelow(maze, (5, 5)) == Ok((5, 4))
    ensures CellRight(maze, (5, 5)) == Ok((6, 5)) && CellLeft(maze, (5, 5)) == Ok((4, 5))
    ensures CellBelow(maze, (0, 0)).Err? && CellLeft(maze, (0, 0)).Err?
    ensures CellAbove(maze, (9, 9)).Err? && CellRight(maze, (9, 9)).Err?
  {
    assert (5, 6) in maze.cells && (5, 4) in maze.cells && (6, 5) in maze.cells && (4, 5) in maze.cells;
    assert (9, 10) !in maze.cells && (10, 9) !in maze.cells;
  }

  /** The library's occupied-maze example: one location, occupied. */
  method OccupiedMazeExample()
  {
    var maze := new HashMapMaze<Loc, string>();
    maze.AddLoc((0, 0), "start");
    var occupied := new HashMapOccupiedMaze.FromHashMapMaze(maze, (0, 0));
    assert occupied.GetValue() == Some("start");
  }
}

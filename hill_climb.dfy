/** Day 12 of 2022: the shortest climb on a height map, found by a
    best-first search over whole paths ordered by their length. */
module HillClimb {
  import opened Wrappers
  import opened Maze
  import Strings

  /** A path through the maze: the locations visited, in order. */
  datatype Path = Path(locs: seq<Loc>)
  {
    function Len(): nat { |locs| }

    function Push(loc: Loc): (p: Path)
      ensures p.locs == locs + [loc] && p.Len() == Len() + 1
    {
      Path(locs + [loc])
    }

    function Last(): (r: Option<Loc>)
      ensures r.None? <==> |locs| == 0
      ensures r.Some? ==> r.value == locs[|locs| - 1]
    {
      if Len() == 0 then None else Some(locs[Len() - 1])
    }

    /** `Ord for Path`: only the lengths are compared. */
    function Cmp(other: Path): (o: Ordering)
      ensures o == Less <==> |locs| < |other.locs|
      ensures o == Equal <==> |locs| == |other.locs|
      ensures o == Greater <==> |locs| > |other.locs|
    {
      if Len() < other.Len() then Less else if Len() == other.Len() then Equal else Greater
    }
  }

  /** Two different paths of one length compare Equal, and the heap example's
      two-step path is below its three-step extension. */
  lemma PathOrderIsByLength()
    ensures Path([(0, 0), (0, 1)]).Cmp(Path([(0, 0), (0, 1), (1, 1)])) == Less
    ensures Path([(0, 0), (0, 1)]).Cmp(Path([(0, 0), (1, 0)])) == Equal
    ensures Path([]).Last() == None && Path([(3, 4)]).Last() == Some((3, 4))
  {
  }

  /** The height rule: climb at most one level, or in reverse descend at
      most one level. */
  predicate Allowed(height: int, newHeight: int, uphill: bool)
  {
    if uphill then newHeight - height <= 1 else height - newHeight <= 1
  }

  /** One move of the search: between adjacent keys, obeying the rule. */
  ghost predicate Step(cells: map<Loc, nat>, a: Loc, b: Loc, uphill: bool)
  {
    a in cells && b in cells && Adjacent(a, b) && Allowed(cells[a], cells[b], uphill)
  }

  /** The move from `w[i]` to `w[i + 1]` is allowed. */
  ghost predicate StepAt(cells: map<Loc, nat>, w: seq<Loc>, i: nat, uphill: bool)
    requires i + 1 < |w|
  {
    Step(cells, w[i], w[i + 1], uphill)
  }

  /** A walk from `origin` made of allowed moves; locations may repeat. */
  ghost predicate IsWalk(cells: map<Loc, nat>, w: seq<Loc>, origin: Loc, uphill: bool)
  {
    |w| > 0 && w[0] == origin && forall i: nat :: i < |w| - 1 ==> StepAt(cells, w, i, uphill)
  }

  lemma WalkPrefix(cells: map<Loc, nat>, w: seq<Loc>, origin: Loc, uphill: bool, n: nat)
    requires IsWalk(cells, w, origin, uphill) && 0 < n <= |w|
    ensures IsWalk(cells, w[..n], origin, uphill)
  {
    var v := w[..n];
    forall i: nat | i < |v| - 1 ensures StepAt(cells, v, i, uphill) {
      assert StepAt(cells, w, i, uphill);
      assert v[i] == w[i] && v[i + 1] == w[i + 1];
    }
  }

  /** A walk that starts inside `inside` and ends outside it leaves it at
      some step. */
  lemma {:induction false} FirstExit(w: seq<Loc>, inside: set<Loc>) returns (j: nat)
    requires |w| > 0 && w[0] in inside && w[|w| - 1] !in inside
    ensures 0 < j < |w| && w[j - 1] in inside && w[j] !in inside
    decreases |w|
  {
    if w[1] !in inside {
      j := 1;
    } else {
      var j' := FirstExit(w[1..], inside);
      j := j' + 1;
    }
  }

  /** A shortest entry of a non-empty queue exists. */
  lemma {:induction false} ShortestExists(pq: seq<Path>) returns (k: nat)
    requires |pq| > 0
    ensures k < |pq| && forall j :: 0 <= j < |pq| ==> pq[k].Len() <= pq[j].Len()
  {
    if |pq| == 1 {
      k := 0;
    } else {
      var k' := ShortestExists(pq[1..]);
      k := if pq[0].Len() <= pq[k' + 1].Len() then 0 else k' + 1;
      forall j | 0 <= j < |pq| ensures pq[k].Len() <= pq[j].Len() {
        if j > 0 { assert pq[j] == pq[1..][j - 1]; }
      }
    }
  }

  /** The frontier invariant of the search: from every visited location,
      every allowed move to an unvisited one is waiting in the queue as a
      path no longer than the visited location's distance plus one. */
  ghost predicate Frontier(cells: map<Loc, nat>, uphill: bool, visited: set<Loc>,
                           dist: map<Loc, nat>, pq: seq<Path>)
  {
    forall a, b :: a in visited && b !in visited && Step(cells, a, b, uphill) ==>
      a in dist && exists q :: q in pq && q.Len() > 0 && q.locs[q.Len() - 1] == b && q.Len() <= dist[a] + 1
  }

  /** `dist` holds, for every visited location, a length no walk beats. */
  ghost predicate Optimal(cells: map<Loc, nat>, origin: Loc, uphill: bool,
                          visited: set<Loc>, dist: map<Loc, nat>)
  {
    visited <= dist.Keys &&
    forall w :: IsWalk(cells, w, origin, uphill) && w[|w| - 1] in visited ==> dist[w[|w| - 1]] <= |w|
  }

  /** The key step of the proof: a shortest queued path is no longer than
      any walk that ends outside the visited set. */
  lemma ShortestBeatsWalks(cells: map<Loc, nat>, origin: Loc, uphill: bool,
                           visited: set<Loc>, dist: map<Loc, nat>, pq: seq<Path>, k: nat)
    requires k < |pq| && forall j :: 0 <= j < |pq| ==> pq[k].Len() <= pq[j].Len()
    requires visited == {} ==> pq == [Path([origin])]
    requires visited != {} ==> origin in visited
    requires Optimal(cells, origin, uphill, visited, dist)
    requires Frontier(cells, uphill, visited, dist, pq)
    ensures forall w :: IsWalk(cells, w, origin, uphill) && w[|w| - 1] !in visited ==> pq[k].Len() <= |w|
  {
    forall w | IsWalk(cells, w, origin, uphill) && w[|w| - 1] !in visited
      ensures pq[k].Len() <= |w|
    {
      if visited != {} {
        var j := FirstExit(w, visited);
        assert StepAt(cells, w, j - 1, uphill);
        var q :| q in pq && q.Len() > 0 && q.locs[q.Len() - 1] == w[j] && q.Len() <= dist[w[j - 1]] + 1;
        WalkPrefix(cells, w, origin, uphill, j);
        assert w[..j][j - 1] == w[j - 1];
        var iq :| 0 <= iq < |pq| && pq[iq] == q;
      }
    }
  }

  /** The paths one popped path spawns: one per neighbour, in the order
      above, below, left, right, that is not on the path already and that
      the height rule allows. */
  method Expand(maze: HashMapMaze<Loc, nat>, path: Path, uphill: bool) returns (spawned: seq<Path>)
    requires path.Len() > 0 && path.locs[path.Len() - 1] in maze.cells
    ensures forall q :: q in spawned ==>
      exists v :: q == path.Push(v) && v !in path.locs && Step(maze.cells, path.locs[path.Len() - 1], v, uphill)
    ensures forall v :: v !in path.locs && Step(maze.cells, path.locs[path.Len() - 1], v, uphill) ==> path.Push(v) in spawned
  {
    var loc := path.Last().value;
    var height := maze.cells[loc];
    var candidates := Neighbours(maze, loc);
    spawned := [];
    for n := 0 to 4
      invariant forall q :: q in spawned ==>
        exists v :: q == path.Push(v) && v !in path.locs && Step(maze.cells, loc, v, uphill)
      invariant forall k :: (0 <= k < n && candidates[k].Ok? && candidates[k].value !in path.locs
                             && Allowed(height, maze.cells[candidates[k].value], uphill))
                             ==> path.Push(candidates[k].value) in spawned
    {
      match candidates[n]
      case Err(_) =>
      case Ok(newLoc) =>
        NeighboursAreAdjacentKeys(maze, loc, newLoc);
        var newHeight := maze.cells[newLoc];
        if newLoc !in path.locs && Allowed(height, newHeight, uphill) {
          spawned := spawned + [path.Push(newLoc)];
        }
    }
    forall v | v !in path.locs && Step(maze.cells, loc, v, uphill) ensures path.Push(v) in spawned {
      NeighboursAreAdjacentKeys(maze, loc, v);
    }
  }

  /** Every queued path is a walk from the origin whose locations, except
      the last, have all been visited. */
  ghost predicate Queued(cells: map<Loc, nat>, origin: Loc, uphill: bool, visited: set<Loc>, pq: seq<Path>)
  {
    forall q :: q in pq ==>
      IsWalk(cells, q.locs, origin, uphill) && forall i :: 0 <= i < q.Len() - 1 ==> q.locs[i] in visited
  }

  function Remove(pq: seq<Path>, k: nat): (r: seq<Path>)
    requires k < |pq|
    ensures |r| == |pq| - 1
    ensures forall q :: q in r ==> q in pq
    ensures forall q :: q in pq && q != pq[k] ==> q in r
  {
    pq[..k] + pq[k + 1..]
  }

  /** Dropping a path that ends at a visited location keeps the frontier. */
  lemma FrontierAfterSkip(cells: map<Loc, nat>, uphill: bool, visited: set<Loc>,
                          dist: map<Loc, nat>, pq: seq<Path>, k: nat)
    requires k < |pq| && pq[k].Len() > 0 && pq[k].locs[pq[k].Len() - 1] in visited
    requires Frontier(cells, uphill, visited, dist, pq)
    ensures Frontier(cells, uphill, visited, dist, Remove(pq, k))
  {
    forall a, b | a in visited && b !in visited && Step(cells, a, b, uphill)
      ensures exists q :: q in Remove(pq, k) && q.Len() > 0 && q.locs[q.Len() - 1] == b && q.Len() <= dist[a] + 1
    {
      var q :| q in pq && q.Len() > 0 && q.locs[q.Len() - 1] == b && q.Len() <= dist[a] + 1;
      assert q in Remove(pq, k);
    }
  }

  /** Visiting the end `u` of the popped path and queueing what it spawns
      keeps the frontier. */
  lemma FrontierAfterVisit(cells: map<Loc, nat>, uphill: bool, visited: set<Loc>,
                           dist: map<Loc, nat>, pq: seq<Path>, k: nat, spawned: seq<Path>)
    requires k < |pq| && pq[k].Len() > 0
    requires forall i :: 0 <= i < pq[k].Len() - 1 ==> pq[k].locs[i] in visited
    requires pq[k].locs[pq[k].Len() - 1] !in visited
    requires Frontier(cells, uphill, visited, dist, pq)
    requires forall v :: v !in pq[k].locs && Step(cells, pq[k].locs[pq[k].Len() - 1], v, uphill) ==> pq[k].Push(v) in spawned
    ensures var u := pq[k].locs[pq[k].Len() - 1];
      Frontier(cells, uphill, visited + {u}, dist[u := pq[k].Len()], Remove(pq, k) + spawned)
  {
    var p := pq[k];
    var u := p.locs[p.Len() - 1];
    var visited', dist', pq' := visited + {u}, dist[u := p.Len()], Remove(pq, k) + spawned;
    forall a, b | a in visited' && b !in visited' && Step(cells, a, b, uphill)
      ensures a in dist' && exists q :: q in pq' && q.Len() > 0 && q.locs[q.Len() - 1] == b && q.Len() <= dist'[a] + 1
    {
      if a == u {
        assert b !in p.locs;
        var q := p.Push(b);
        assert q in pq' && q.locs[q.Len() - 1] == b;
      } else {
        var q :| q in pq && q.Len() > 0 && q.locs[q.Len() - 1] == b && q.Len() <= dist[a] + 1;
        assert q != p;
        assert q in pq';
      }
    }
  }

  lemma QueuedAfterSkip(cells: map<Loc, nat>, origin: Loc, uphill: bool, visited: set<Loc>,
                        pq: seq<Path>, k: nat)
    requires k < |pq| && Queued(cells, origin, uphill, visited, pq)
    ensures Queued(cells, origin, uphill, visited, Remove(pq, k))
  {
  }

  lemma QueuedAfterVisit(cells: map<Loc, nat>, origin: Loc, uphill: bool, visited: set<Loc>,
                         pq: seq<Path>, k: nat, spawned: seq<Path>)
    requires k < |pq| && Queued(cells, origin, uphill, visited, pq)
    requires forall q :: q in spawned ==>
      exists v :: q == pq[k].Push(v) && Step(cells, pq[k].locs[pq[k].Len() - 1], v, uphill)
    ensures Queued(cells, origin, uphill, visited + {pq[k].locs[pq[k].Len() - 1]}, Remove(pq, k) + spawned)
  {
    var p := pq[k];
    var u := p.locs[p.Len() - 1];
    forall q | q in Remove(pq, k) + spawned
      ensures IsWalk(cells, q.locs, origin, uphill) && forall i :: 0 <= i < q.Len() - 1 ==> q.locs[i] in visited + {u}
    {
      if q in spawned {
        var v :| q == p.Push(v) && Step(cells, u, v, uphill);
        assert q.locs[..p.Len()] == p.locs;
        forall i: nat | i < q.Len() - 1 ensures StepAt(cells, q.locs, i, uphill) {
          if i < p.Len() - 1 {
            assert StepAt(cells, p.locs, i, uphill);
            assert q.locs[i] == p.locs[i] && q.locs[i + 1] == p.locs[i + 1];
          }
        }
      }
    }
  }

  lemma OptimalAfterVisit(cells: map<Loc, nat>, origin: Loc, uphill: bool,
                          visited: set<Loc>, dist: map<Loc, nat>, u: Loc, len: nat)
    requires Optimal(cells, origin, uphill, visited, dist) && u !in visited
    requires forall w :: IsWalk(cells, w, origin, uphill) && w[|w| - 1] !in visited ==> len <= |w|
    ensures Optimal(cells, origin, uphill, visited + {u}, dist[u := len])
  {
    forall w | IsWalk(cells, w, origin, uphill) && w[|w| - 1] in visited + {u}
      ensures dist[u := len][w[|w| - 1]] <= |w|
    {
      if w[|w| - 1] != u {
        assert dist[u := len][w[|w| - 1]] == dist[w[|w| - 1]];
      }
    }
  }

  /** Everything the search keeps true between two pops. */
  ghost predicate SearchState(cells: map<Loc, nat>, origin: Loc, goals: set<Loc>, uphill: bool,
                              visited: set<Loc>, dist: map<Loc, nat>, pq: seq<Path>)
  {
    Queued(cells, origin, uphill, visited, pq)
    && (visited == {} ==> pq == [Path([origin])])
    && (visited != {} ==> origin in visited)
    && (forall l :: l in visited ==> l !in goals)
    && visited <= cells.Keys + {origin}
    && Optimal(cells, origin, uphill, visited, dist)
    && Frontier(cells, uphill, visited, dist, pq)
  }

  /** Some walk from the origin ends at a goal. */
  ghost predicate Reachable(cells: map<Loc, nat>, origin: Loc, goals: set<Loc>, uphill: bool)
  {
    exists w :: IsWalk(cells, w, origin, uphill) && w[|w| - 1] in goals
  }

  /** A shortest entry of the queue, as the heap's pop returns it. */
  ghost predicate IsShortest(pq: seq<Path>, k: nat)
  {
    k < |pq| && forall j :: 0 <= j < |pq| ==> pq[k].Len() <= pq[j].Len()
  }

  lemma SearchStart(cells: map<Loc, nat>, origin: Loc, goals: set<Loc>, uphill: bool)
    ensures SearchState(cells, origin, goals, uphill, {}, map[], [Path([origin])])
  {
    assert IsWalk(cells, [origin], origin, uphill);
  }

  lemma SearchSkip(cells: map<Loc, nat>, origin: Loc, goals: set<Loc>, uphill: bool,
                   visited: set<Loc>, dist: map<Loc, nat>, pq: seq<Path>, k: nat)
    requires SearchState(cells, origin, goals, uphill, visited, dist, pq) && IsShortest(pq, k)
    requires pq[k].Len() > 0 && pq[k].locs[pq[k].Len() - 1] in visited
    ensures SearchState(cells, origin, goals, uphill, visited, dist, Remove(pq, k))
  {
    FrontierAfterSkip(cells, uphill, visited, dist, pq, k);
    QueuedAfterSkip(cells, origin, uphill, visited, pq, k);
    if visited == {} {
      assert false;
    }
  }

  lemma SearchVisit(cells: map<Loc, nat>, origin: Loc, goals: set<Loc>, uphill: bool,
                    visited: set<Loc>, dist: map<Loc, nat>, pq: seq<Path>, k: nat, spawned: seq<Path>)
    requires SearchState(cells, origin, goals, uphill, visited, dist, pq) && IsShortest(pq, k)
    requires pq[k].Len() > 0
    requires var u := pq[k].locs[pq[k].Len() - 1]; u !in visited && u !in goals && u in cells
    requires forall q :: q in spawned ==>
      exists v :: q == pq[k].Push(v) && v !in pq[k].locs && Step(cells, pq[k].locs[pq[k].Len() - 1], v, uphill)
    requires forall v :: v !in pq[k].locs && Step(cells, pq[k].locs[pq[k].Len() - 1], v, uphill) ==> pq[k].Push(v) in spawned
    ensures var u := pq[k].locs[pq[k].Len() - 1];
      SearchState(cells, origin, goals, uphill, visited + {u}, dist[u := pq[k].Len()], Remove(pq, k) + spawned)
  {
    var p := pq[k];
    var u := p.locs[p.Len() - 1];
    if visited == {} {
      assert p == Path([origin]);
    }
    ShortestBeatsWalks(cells, origin, uphill, visited, dist, pq, k);
    FrontierAfterVisit(cells, uphill, visited, dist, pq, k, spawned);
    QueuedAfterVisit(cells, origin, uphill, visited, pq, k, spawned);
    OptimalAfterVisit(cells, origin, uphill, visited, dist, u, p.Len());
  }

  /** A goal popped for the first time ends a shortest walk to any goal. */
  lemma SearchFound(cells: map<Loc, nat>, origin: Loc, goals: set<Loc>, uphill: bool,
                    visited: set<Loc>, dist: map<Loc, nat>, pq: seq<Path>, k: nat)
    requires SearchState(cells, origin, goals, uphill, visited, dist, pq) && IsShortest(pq, k)
    requires pq[k].Len() > 0 && pq[k].locs[pq[k].Len() - 1] in goals
    ensures IsWalk(cells, pq[k].locs, origin, uphill)
    ensures forall w :: IsWalk(cells, w, origin, uphill) && w[|w| - 1] in goals ==> pq[k].Len() <= |w|
  {
    ShortestBeatsWalks(cells, origin, uphill, visited, dist, pq, k);
  }

  /** Every location of a walk after the first is a key, and so is the
      first when the walk moves at all. */
  lemma WalkShape(cells: map<Loc, nat>, w: seq<Loc>, origin: Loc, uphill: bool)
    requires IsWalk(cells, w, origin, uphill)
    ensures |w| == 1 || (w[0] in cells && w[|w| - 1] in cells)
  {
    if |w| > 1 {
      assert StepAt(cells, w, 0, uphill);
      assert StepAt(cells, w, |w| - 2, uphill);
    }
  }

  /** The popped location is not a key only when it is the origin itself,
      and then no walk leaves it. */
  lemma SearchMissing(cells: map<Loc, nat>, origin: Loc, goals: set<Loc>, uphill: bool,
                      visited: set<Loc>, dist: map<Loc, nat>, pq: seq<Path>, k: nat)
    requires SearchState(cells, origin, goals, uphill, visited, dist, pq) && k < |pq|
    requires pq[k].Len() > 0 && pq[k].locs[pq[k].Len() - 1] !in cells
    requires pq[k].locs[pq[k].Len() - 1] !in goals
    ensures !Reachable(cells, origin, goals, uphill)
  {
    var p := pq[k];
    WalkShape(cells, p.locs, origin, uphill);
    assert origin !in cells && origin !in goals;
    forall w | IsWalk(cells, w, origin, uphill) ensures w[|w| - 1] !in goals {
      WalkShape(cells, w, origin, uphill);
    }
  }

  /** A walk that leaves the visited set has its exit waiting in the queue. */
  lemma ExitIsQueued(cells: map<Loc, nat>, origin: Loc, goals: set<Loc>, uphill: bool,
                     visited: set<Loc>, dist: map<Loc, nat>, pq: seq<Path>, w: seq<Loc>)
    requires SearchState(cells, origin, goals, uphill, visited, dist, pq) && visited != {}
    requires IsWalk(cells, w, origin, uphill)
    ensures w[|w| - 1] in visited || |pq| > 0
  {
    if w[|w| - 1] !in visited {
      var j := FirstExit(w, visited);
      assert StepAt(cells, w, j - 1, uphill);
    }
  }

  /** An empty queue means that no walk reaches a goal. */
  lemma SearchExhausted(cells: map<Loc, nat>, origin: Loc, goals: set<Loc>, uphill: bool,
                        visited: set<Loc>, dist: map<Loc, nat>)
    requires SearchState(cells, origin, goals, uphill, visited, dist, [])
    ensures !Reachable(cells, origin, goals, uphill)
  {
    assert visited != {};
    forall w | IsWalk(cells, w, origin, uphill) ensures w[|w| - 1] !in goals {
      ExitIsQueued(cells, origin, goals, uphill, visited, dist, [], w);
    }
  }

  /** The heap's pop: any shortest queued path. */
  method PopShortest(pq: seq<Path>) returns (k: nat)
    requires |pq| > 0
    ensures IsShortest(pq, k)
  {
    ghost var shortest := ShortestExists(pq);
    k :| 0 <= k < |pq| && forall j :: 0 <= j < |pq| ==> pq[k].Len() <= pq[j].Len();
  }

  /** The search shared by both parts: best-first over whole paths from
      `origin`, popping a shortest queued path, skipping ends already
      visited, stopping at the first popped end in `goals`. It returns the
      number of moves, or `None` where the source panics: on an empty queue,
      or on an origin that is neither a key nor a goal. The answer is the
      length of a shortest walk to a goal, and `None` means no walk reaches
      one. */
  method Search(maze: HashMapMaze<Loc, nat>, origin: Loc, goals: set<Loc>, uphill: bool) returns (r: Option<nat>)
    ensures r.Some? ==> exists w :: IsWalk(maze.cells, w, origin, uphill) && w[|w| - 1] in goals && |w| == r.value + 1
    ensures r.Some? ==> forall w :: IsWalk(maze.cells, w, origin, uphill) && w[|w| - 1] in goals ==> r.value + 1 <= |w|
    ensures r.None? <==> !Reachable(maze.cells, origin, goals, uphill)
  {
    ghost var universe := maze.cells.Keys + {origin};
    var visited: set<Loc> := {};
    ghost var dist: map<Loc, nat> := map[];
    var pq: seq<Path> := [Path([origin])];
    SearchStart(maze.cells, origin, goals, uphill);
    while |pq| > 0
      invariant SearchState(maze.cells, origin, goals, uphill, visited, dist, pq)
      decreases |universe - visited|, |pq|
    {
      var k := PopShortest(pq);
      var path := pq[k];
      ghost var before := pq;
      pq := Remove(pq, k);
      var loc := path.Last().value;
      if loc in visited {
        SearchSkip(maze.cells, origin, goals, uphill, visited, dist, before, k);
        continue;
      }
      if loc in goals {
        SearchFound(maze.cells, origin, goals, uphill, visited, dist, before, k);
        return Some(path.Len() - 1);
      }
      if loc !in maze.cells {
        SearchMissing(maze.cells, origin, goals, uphill, visited, dist, before, k);
        return None;
      }
      var spawned := Expand(maze, path, uphill);
      SearchVisit(maze.cells, origin, goals, uphill, visited, dist, before, k, spawned);
      assert (universe - (visited + {loc})) + {loc} == universe - visited;
      visited := visited + {loc};
      dist := dist[loc := path.Len()];
      pq := pq + spawned;
    }
    SearchExhausted(maze.cells, origin, goals, uphill, visited, dist);
    return None;
  }

  /** One more than the largest height whose `as i8` cast in the search is
      the height itself. */
  const HeightLimit: nat := 128

  /** The characters the model reads: 'S', 'E', and every character from
      'a' on whose height stays below `HeightLimit`. Below 'a' the source's
      `c as u32 - 97` panics. */
  predicate IsMapChar(c: char) { c == 'S' || c == 'E' || 'a' <= c < ('a' as int + HeightLimit) as char }

  /** Row `j` up to column `i`, and every row below it, hold map characters
      only. */
  predicate MapUpTo(rows: seq<string>, j: nat, i: nat)
  {
    forall y, x :: 0 <= y < |rows| && 0 <= x < |rows[y]| && (y < j || (y == j && x < i)) ==> IsMapChar(rows[y][x])
  }

  predicate IsMap(rows: seq<string>)
  {
    MapUpTo(rows, |rows|, 0)
  }

  /** 'S' is at height 0, 'E' at 25 and any other character at its
      distance from 'a': 0 to 25 for the letters, more for the characters
      after 'z'. */
  function Height(c: char): (h: nat)
    requires IsMapChar(c)
    ensures h < HeightLimit
    ensures 'a' <= c <= 'z' ==> h <= 25
  {
    if c == 'S' then 0 else if c == 'E' then 25 else c as int - 'a' as int
  }

  /** The input's lines from the bottom up: row `j` is the `j`-th line
      counted from the last. */
  function Rows(input: string): (rows: seq<string>)
    ensures |rows| == |Strings.Lines(input)|
    ensures forall j :: 0 <= j < |rows| ==> rows[j] == Strings.Lines(input)[|rows| - 1 - j]
  {
    var lines := Strings.Lines(input);
    seq(|lines|, j requires 0 <= j < |lines| => lines[|lines| - 1 - j])
  }

  /** The heights of the rows below `j` and of the first `i` characters of
      row `j`, keyed by (column, row). */
  function HeightsUpTo(rows: seq<string>, j: nat, i: nat): map<Loc, nat>
    requires MapUpTo(rows, j, i) && j <= |rows| && (j < |rows| ==> i <= |rows[j]|)
  {
    var keys := set y: nat, x: nat | y <= j && y < |rows| && x < |rows[y]| && (y < j || x < i) :: (x, y);
    map l | l in keys :: Height(rows[l.1][l.0])
  }

  /** The keys of `HeightsUpTo` are the positions of the rows below `j` and
      the first `i` positions of row `j`, each mapped to its height. */
  lemma HeightsUpToMeaning(rows: seq<string>, j: nat, i: nat)
    requires MapUpTo(rows, j, i) && j <= |rows| && (j < |rows| ==> i <= |rows[j]|)
    ensures var m := HeightsUpTo(rows, j, i);
      (forall l :: l in m <==> (l.1 < j && l.0 < |rows[l.1]|) || (l.1 == j < |rows| && l.0 < i))
      && (forall l :: l in m ==> m[l] == Height(rows[l.1][l.0]))
  {
    var keys := set y: nat, x: nat | y <= j && y < |rows| && x < |rows[y]| && (y < j || x < i) :: (x, y);
    forall l: Loc | (l.1 < j && l.0 < |rows[l.1]|) || (l.1 == j < |rows| && l.0 < i) ensures l in keys {
      assert l == (l.0, l.1);
    }
  }

  lemma HeightsNextColumn(rows: seq<string>, j: nat, i: nat)
    requires MapUpTo(rows, j, i + 1) && j < |rows| && i < |rows[j]|
    ensures HeightsUpTo(rows, j, i + 1) == HeightsUpTo(rows, j, i)[(i, j) := Height(rows[j][i])]
  {
    HeightsUpToMeaning(rows, j, i);
    HeightsUpToMeaning(rows, j, i + 1);
  }

  lemma HeightsNextRow(rows: seq<string>, j: nat)
    requires MapUpTo(rows, j + 1, 0) && j < |rows|
    ensures HeightsUpTo(rows, j, |rows[j]|) == HeightsUpTo(rows, j + 1, 0)
  {
    HeightsUpToMeaning(rows, j, |rows[j]|);
    HeightsUpToMeaning(rows, j + 1, 0);
  }

  /** Every character of the map, keyed by (column, row). */
  function Heights(rows: seq<string>): (m: map<Loc, nat>)
    requires IsMap(rows)
    ensures forall l :: l in m <==> l.1 < |rows| && l.0 < |rows[l.1]|
    ensures forall l :: l in m ==> m[l] == Height(rows[l.1][l.0])
  {
    HeightsUpToMeaning(rows, |rows|, 0);
    HeightsUpTo(rows, |rows|, 0)
  }

  /** The last position in reading order (rows from the bottom, characters
      from the left) among the first `n` characters of `row` that holds
      `ch`, or `found` when there is none. */
  function LastInRow(row: string, j: nat, ch: char, found: Loc, n: nat): Loc
    requires n <= |row|
  {
    if n == 0 then found
    else if row[n - 1] == ch then (n - 1, j)
    else LastInRow(row, j, ch, found, n - 1)
  }

  /** The last position in reading order among the first `m` rows that
      holds `ch`, or (0, 0). */
  function LastOf(rows: seq<string>, ch: char, m: nat): Loc
    requires m <= |rows|
  {
    if m == 0 then (0, 0)
    else LastInRow(rows[m - 1], m - 1, ch, LastOf(rows, ch, m - 1), |rows[m - 1]|)
  }

  /** Position `a` comes no later than `b` in reading order. */
  predicate NoLater(a: Loc, b: Loc) { a.1 < b.1 || (a.1 == b.1 && a.0 <= b.0) }

  lemma {:induction false} LastInRowIsLast(rows: seq<string>, j: nat, ch: char, found: Loc, n: nat)
    requires j < |rows| && n <= |rows[j]|
    ensures var r := LastInRow(rows[j], j, ch, found, n);
      (r == found && forall i :: 0 <= i < n ==> rows[j][i] != ch)
      || (r.1 == j && r.0 < n && rows[j][r.0] == ch && forall i :: r.0 < i < n ==> rows[j][i] != ch)
  {
    if n > 0 && rows[j][n - 1] != ch {
      LastInRowIsLast(rows, j, ch, found, n - 1);
    }
  }

  /** `LastOf` is where the parser leaves `start` and `end`: the last
      occurrence of the character in reading order, or (0, 0) if it does
      not occur. */
  lemma {:induction false} LastOfIsLast(rows: seq<string>, ch: char, m: nat)
    requires m <= |rows|
    ensures var r := LastOf(rows, ch, m);
      (r == (0, 0) && forall j, i :: 0 <= j < m && 0 <= i < |rows[j]| ==> rows[j][i] != ch)
      || (r.1 < m && r.0 < |rows[r.1]| && rows[r.1][r.0] == ch
          && forall j, i :: 0 <= j < m && 0 <= i < |rows[j]| && rows[j][i] == ch ==> NoLater((i, j), r))
  {
    if m > 0 {
      LastOfIsLast(rows, ch, m - 1);
      LastInRowIsLast(rows, m - 1, ch, LastOf(rows, ch, m - 1), |rows[m - 1]|);
    }
  }

  /** `parse_input`: every character becomes a key at (column, row) with
      rows counted from the bottom; `start` and `end` are the last 'S' and
      'E' met, or (0, 0). `ok` is false where the source panics on a
      character below 'a' (or the model meets a height it does not read). */
  method ParseInput(input: string) returns (maze: HashMapMaze<Loc, nat>, start: Loc, end: Loc, ok: bool)
    ensures fresh(maze)
    ensures ok <==> IsMap(Rows(input))
    ensures ok ==> maze.cells == Heights(Rows(input))
    ensures ok ==> start == LastOf(Rows(input), 'S', |Rows(input)|)
    ensures ok ==> end == LastOf(Rows(input), 'E', |Rows(input)|)
  {
    maze := new HashMapMaze();
    start, end := (0, 0), (0, 0);
    var rows := Rows(input);
    for j := 0 to |rows|
      invariant MapUpTo(rows, j, 0)
      invariant maze.cells == HeightsUpTo(rows, j, 0)
      invariant start == LastOf(rows, 'S', j) && end == LastOf(rows, 'E', j)
    {
      var rowOk;
      start, end, rowOk := ParseRow(maze, rows, j, start, end);
      if !rowOk {
        return maze, start, end, false;
      }
      HeightsNextRow(rows, j);
    }
    ok := true;
  }

  /** One pass of the inner loop of `parse_input`: row `j` is added to the
      maze cell by cell, and `start` and `end` move to the last 'S' and 'E'
      of the row, if any; `ok` is false where a character of the row is not
      read. */
  method ParseRow(maze: HashMapMaze<Loc, nat>, rows: seq<string>, j: nat, start0: Loc, end0: Loc)
    returns (start: Loc, end: Loc, ok: bool)
    requires MapUpTo(rows, j, 0) && j < |rows|
    requires maze.cells == HeightsUpTo(rows, j, 0)
    modifies maze
    ensures ok <==> MapUpTo(rows, j + 1, 0)
    ensures ok ==> maze.cells == HeightsUpTo(rows, j, |rows[j]|)
    ensures ok ==> start == LastInRow(rows[j], j, 'S', start0, |rows[j]|)
    ensures ok ==> end == LastInRow(rows[j], j, 'E', end0, |rows[j]|)
  {
    start, end := start0, end0;
    var row := rows[j];
    for i := 0 to |row|
      invariant MapUpTo(rows, j, i)
      invariant maze.cells == HeightsUpTo(rows, j, i)
      invariant start == LastInRow(row, j, 'S', start0, i)
      invariant end == LastInRow(row, j, 'E', end0, i)
    {
      var c := row[i];
      if !IsMapChar(c) {
        return start, end, false;
      }
      if c == 'S' {
        start := (i, j);
      } else if c == 'E' {
        end := (i, j);
      }
      HeightsNextColumn(rows, j, i);
      maze.AddLoc((i, j), Height(c));
    }
    ok := true;
  }

  /** `part_one`: the fewest moves from 'S' to 'E' climbing at most one
      level per move, or `None` where the source panics. */
  method PartOne(input: string) returns (r: Option<nat>)
    ensures !IsMap(Rows(input)) ==> r.None?
    ensures var rows := Rows(input);
      IsMap(rows) ==>
      var start, end := LastOf(rows, 'S', |rows|), LastOf(rows, 'E', |rows|);
      (r.None? <==> !Reachable(Heights(rows), start, {end}, true))
      && (r.Some? ==> exists w :: IsWalk(Heights(rows), w, start, true) && w[|w| - 1] == end && |w| == r.value + 1)
      && (r.Some? ==> forall w :: IsWalk(Heights(rows), w, start, true) && w[|w| - 1] == end ==> r.value + 1 <= |w|)
  {
    var maze, start, end, ok := ParseInput(input);
    if !ok {
      return None;
    }
    r := Search(maze, start, {end}, true);
  }

  /** `part_two`: the fewest moves from 'E' down to any location of height
      0, descending at most one level per move, or `None` where the source
      panics. */
  method PartTwo(input: string) returns (r: Option<nat>)
    ensures !IsMap(Rows(input)) ==> r.None?
    ensures var rows := Rows(input);
      IsMap(rows) ==>
      var end := LastOf(rows, 'E', |rows|);
      var lowest := set l | l in Heights(rows) && Heights(rows)[l] == 0;
      (r.None? <==> !Reachable(Heights(rows), end, lowest, false))
      && (r.Some? ==> exists w :: IsWalk(Heights(rows), w, end, false) && w[|w| - 1] in lowest && |w| == r.value + 1)
      && (r.Some? ==> forall w :: IsWalk(Heights(rows), w, end, false) && w[|w| - 1] in lowest ==> r.value + 1 <= |w|)
  {
    var maze, _, end, ok := ParseInput(input);
    if !ok {
      return None;
    }
    var lowest := set l | l in maze.cells && maze.cells[l] == 0;
    r := Search(maze, end, lowest, false);
  }

  /** The puzzle's sample map, as its lines. */
  const SampleLines: seq<string> := ["Sabqponm", "abcryxxl", "accszExk", "acctuvwj", "abdefghi"]

  const Sample: string := Strings.Join(SampleLines, "\n")

  /** `LastInRow` finds an occurrence with no other after it. */
  lemma {:induction false} LastInRowAt(row: string, j: nat, ch: char, found: Loc, p: nat, n: nat)
    requires p < n <= |row| && row[p] == ch
    requires forall i :: p < i < n ==> row[i] != ch
    ensures LastInRow(row, j, ch, found, n) == (p, j)
    decreases n
  {
    if p < n - 1 {
      LastInRowAt(row, j, ch, found, p, n - 1);
    }
  }

  /** `LastInRow` keeps what it was given on a row without the character. */
  lemma {:induction false} LastInRowAbsent(row: string, j: nat, ch: char, found: Loc, n: nat)
    requires n <= |row|
    requires forall i :: 0 <= i < n ==> row[i] != ch
    ensures LastInRow(row, j, ch, found, n) == found
    decreases n
  {
    if n > 0 {
      LastInRowAbsent(row, j, ch, found, n - 1);
    }
  }

  /** The sample's rows, bottom line first. */
  lemma SampleRows()
    ensures Rows(Sample) == ["abdefghi", "acctuvwj", "accszExk", "abcryxxl", "Sabqponm"]
  {
    Strings.LinesOfJoin(SampleLines);
  }

  /** On the sample, 'S' is at (0, 4) and 'E' at (5, 2), counting rows
      from the bottom line up. */
  lemma SampleStartAndEnd()
    ensures var rows := Rows(Sample);
      |rows| == 5 && LastOf(rows, 'S', 5) == (0, 4) && LastOf(rows, 'E', 5) == (5, 2)
  {
    SampleRows();
    var rows := Rows(Sample);
    LastInRowAbsent(rows[0], 0, 'S', (0, 0), 8);
    LastInRowAbsent(rows[1], 1, 'S', LastOf(rows, 'S', 1), 8);
    LastInRowAbsent(rows[2], 2, 'S', LastOf(rows, 'S', 2), 8);
    LastInRowAbsent(rows[3], 3, 'S', LastOf(rows, 'S', 3), 8);
    LastInRowAt(rows[4], 4, 'S', LastOf(rows, 'S', 4), 0, 8);
    LastInRowAbsent(rows[0], 0, 'E', (0, 0), 8);
    LastInRowAbsent(rows[1], 1, 'E', LastOf(rows, 'E', 1), 8);
    LastInRowAt(rows[2], 2, 'E', LastOf(rows, 'E', 2), 5, 8);
    LastInRowAbsent(rows[3], 3, 'E', LastOf(rows, 'E', 3), 8);
    LastInRowAbsent(rows[4], 4, 'E', LastOf(rows, 'E', 4), 8);
  }
}

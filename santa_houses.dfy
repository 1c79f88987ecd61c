/** Day 3 of 2015, "Perfectly Spherical Houses in a Vacuum": Santa (and
    later Robo-Santa) walk an infinite grid following arrows, and every
    house visited gets a present. The answers count the houses that get at
    least one. */
module SantaHouses {
  import opened Wrappers

  type Pos = (int, int)

  const Origin: Pos := (0, 0)

  /** `increment_hashmap_counter`: the key's count goes up by one, starting
      from 0 when it is absent. */
  function Increment<K(!new)>(m: map<K, int>, key: K): (r: map<K, int>)
    ensures key in r && r[key] == (if key in m then m[key] else 0) + 1
    ensures forall k :: k != key ==> (k in r <==> k in m)
    ensures forall k :: k in m && k != key ==> r[k] == m[k]
  {
    m[key := (if key in m then m[key] else 0) + 1]
  }

  /** The four arrows; anything else makes the source panic. */
  predicate IsArrow(c: char) { c == '^' || c == 'v' || c == '<' || c == '>' }

  predicate Arrows(s: string) { forall i :: 0 <= i < |s| ==> IsArrow(s[i]) }

  /** '^' is north (y + 1), 'v' south, '<' west (x - 1), '>' east. */
  function Move(p: Pos, c: char): (q: Pos)
    requires IsArrow(c)
    ensures q != p
  {
    match c
    case '^' => (p.0, p.1 + 1)
    case 'v' => (p.0, p.1 - 1)
    case '<' => (p.0 - 1, p.1)
    case '>' => (p.0 + 1, p.1)
  }

  /** The houses visited in order, the starting one first. */
  function Walk(start: Pos, s: string): (w: seq<Pos>)
    requires Arrows(s)
    ensures |w| == |s| + 1 && w[0] == start
  {
    if |s| == 0 then [start]
    else
      var before := Walk(start, s[..|s| - 1]);
      before + [Move(before[|before| - 1], s[|s| - 1])]
  }

  /** The houses on a walk. */
  function Houses(w: seq<Pos>): set<Pos>
  {
    set p | p in w
  }

  /** Santa's houses: everything on his walk from the origin. */
  function SantaHouses(s: string): set<Pos>
    requires Arrows(s)
  {
    Houses(Walk(Origin, s))
  }

  /** The arrows at even positions (Santa's in part two). */
  function Evens(s: string): (r: string)
    ensures |r| == (|s| + 1) / 2
  {
    if |s| == 0 then ""
    else if (|s| - 1) % 2 == 0 then Evens(s[..|s| - 1]) + [s[|s| - 1]]
    else Evens(s[..|s| - 1])
  }

  /** The arrows at odd positions (Robo-Santa's in part two). */
  function Odds(s: string): (r: string)
    ensures |r| == |s| / 2
  {
    if |s| == 0 then ""
    else if (|s| - 1) % 2 == 1 then Odds(s[..|s| - 1]) + [s[|s| - 1]]
    else Odds(s[..|s| - 1])
  }

  /** Santa's arrows are those at even positions, Robo-Santa's those at
      odd positions, each in order. */
  lemma {:induction false} PartsAt(s: string)
    ensures forall k :: 0 <= k < |Evens(s)| ==> Evens(s)[k] == s[2 * k]
    ensures forall k :: 0 <= k < |Odds(s)| ==> Odds(s)[k] == s[2 * k + 1]
  {
    if |s| > 0 {
      var init := s[..|s| - 1];
      PartsAt(init);
      assert forall k :: 0 <= k < |init| ==> init[k] == s[k];
    }
  }

  lemma ArrowsOfPart(s: string)
    requires Arrows(s)
    ensures Arrows(Evens(s)) && Arrows(Odds(s))
  {
    PartsAt(s);
  }

  /** Both walk from the origin, each taking every other arrow. */
  function PairHouses(s: string): set<Pos>
    requires Arrows(s)
  {
    ArrowsOfPart(s);
    Houses(Walk(Origin, Evens(s))) + Houses(Walk(Origin, Odds(s)))
  }

  /** The counter map after some visits: each house visited mapped to the
      number of its visits, and no other key. */
  ghost predicate Tally(m: map<Pos, int>, visits: multiset<Pos>)
  {
    forall p :: (p in m <==> p in visits) && (p in m ==> m[p] == visits[p])
  }

  /** Counting one more visit keeps the tally. */
  lemma TallyStep(m: map<Pos, int>, visits: multiset<Pos>, p: Pos)
    requires Tally(m, visits)
    ensures Tally(Increment(m, p), visits + multiset{p})
  {
  }

  /** One more arrow extends the walk by one house. */
  lemma WalkSnoc(start: Pos, s: string, c: char)
    requires Arrows(s) && IsArrow(c)
    ensures Arrows(s + [c])
    ensures Walk(start, s + [c]) == Walk(start, s) + [Move(Walk(start, s)[|s|], c)]
  {
    assert (s + [c])[..|s|] == s;
  }

  /** One more arrow goes to Santa after an even number of arrows and to
      Robo-Santa after an odd number. */
  lemma PartsSnoc(s: string, c: char)
    ensures Evens(s + [c]) == if |s| % 2 == 0 then Evens(s) + [c] else Evens(s)
    ensures Odds(s + [c]) == if |s| % 2 == 1 then Odds(s) + [c] else Odds(s)
  {
    assert (s + [c])[..|s|] == s;
  }

  /** What `part_one` knows after `i` arrows: Santa stands at the end of
      his walk and the map tallies the houses on it. */
  ghost predicate SoloState(input: string, i: nat, loc: Pos, m: map<Pos, int>)
  {
    i <= |input| && Arrows(input[..i]) &&
    loc == Walk(Origin, input[..i])[i] &&
    Tally(m, multiset(Walk(Origin, input[..i])))
  }

  lemma SoloStep(input: string, i: nat, loc: Pos, m: map<Pos, int>)
    requires SoloState(input, i, loc, m) && i < |input| && IsArrow(input[i])
    ensures SoloState(input, i + 1, Move(loc, input[i]), Increment(m, Move(loc, input[i])))
  {
    var before := input[..i];
    assert input[..i + 1] == before + [input[i]];
    WalkSnoc(Origin, before, input[i]);
    TallyStep(m, multiset(Walk(Origin, before)), Move(loc, input[i]));
  }

  /** `part_one`: the houses Santa visits, or `None` where the source
      panics on a character that is not an arrow. */
  method PartOne(input: string) returns (r: Option<nat>)
    ensures !Arrows(input) ==> r == None
    ensures Arrows(input) ==> r == Some(|SantaHouses(input)|)
  {
    var m: map<Pos, int> := map[];
    var loc := Origin;
    m := Increment(m, loc);
    var i := 0;
    assert input[..0] == [];
    while i < |input|
      invariant SoloState(input, i, loc, m)
    {
      var c := input[i];
      if !IsArrow(c) {
        return None;
      }
      SoloStep(input, i, loc, m);
      loc := Move(loc, c);
      m := Increment(m, loc);
      i := i + 1;
    }
    assert input[..i] == input;
    TallySize(m, Walk(Origin, input), []);
    return Some(|m|);
  }

  /** Santa's houses in part two, in order. */
  function SantaWalk(s: string): (w: seq<Pos>)
    requires Arrows(s)
    ensures |w| > 0
  {
    ArrowsOfPart(s);
    Walk(Origin, Evens(s))
  }

  /** Robo-Santa's houses, in order. */
  function RobotWalk(s: string): (w: seq<Pos>)
    requires Arrows(s)
    ensures |w| > 0
  {
    ArrowsOfPart(s);
    Walk(Origin, Odds(s))
  }

  /** An arrow after an even number of arrows moves Santa only, one after
      an odd number moves Robo-Santa only. */
  lemma PairSnoc(s: string, c: char)
    requires Arrows(s) && IsArrow(c)
    ensures Arrows(s + [c])
    ensures |s| % 2 == 0 ==>
      SantaWalk(s + [c]) == SantaWalk(s) + [Move(Last(SantaWalk(s)), c)] &&
      RobotWalk(s + [c]) == RobotWalk(s)
    ensures |s| % 2 == 1 ==>
      SantaWalk(s + [c]) == SantaWalk(s) &&
      RobotWalk(s + [c]) == RobotWalk(s) + [Move(Last(RobotWalk(s)), c)]
  {
    assert (s + [c])[..|s|] == s;
    PartsSnoc(s, c);
    ArrowsOfPart(s);
    if |s| % 2 == 0 {
      WalkSnoc(Origin, Evens(s), c);
    } else {
      WalkSnoc(Origin, Odds(s), c);
    }
  }

  function Last(w: seq<Pos>): Pos
    requires |w| > 0
  {
    w[|w| - 1]
  }

  /** What `part_two` knows after `i` arrows: each of the two stands at the
      end of his own walk and the map tallies the houses on both. */
  ghost predicate PairState(input: string, i: nat, santa: Pos, robot: Pos, m: map<Pos, int>)
  {
    i <= |input| && Arrows(input[..i]) &&
    santa == Last(SantaWalk(input[..i])) &&
    robot == Last(RobotWalk(input[..i])) &&
    Tally(m, multiset(SantaWalk(input[..i])) + multiset(RobotWalk(input[..i])))
  }

  lemma SantaStep(input: string, i: nat, santa: Pos, robot: Pos, m: map<Pos, int>)
    requires PairState(input, i, santa, robot, m) && i < |input| && IsArrow(input[i])
    requires i % 2 == 0
    ensures PairState(input, i + 1, Move(santa, input[i]), robot, Increment(m, Move(santa, input[i])))
  {
    var before, c := input[..i], input[i];
    assert input[..i + 1] == before + [c];
    PairSnoc(before, c);
    var q := Move(santa, c);
    var ms := multiset(SantaWalk(before)) + multiset(RobotWalk(before));
    TallyStep(m, ms, q);
    assert multiset(SantaWalk(before) + [q]) + multiset(RobotWalk(before)) == ms + multiset{q};
  }

  lemma RobotStep(input: string, i: nat, santa: Pos, robot: Pos, m: map<Pos, int>)
    requires PairState(input, i, santa, robot, m) && i < |input| && IsArrow(input[i])
    requires i % 2 == 1
    ensures PairState(input, i + 1, santa, Move(robot, input[i]), Increment(m, Move(robot, input[i])))
  {
    var before, c := input[..i], input[i];
    assert input[..i + 1] == before + [c];
    PairSnoc(before, c);
    var q := Move(robot, c);
    var ms := multiset(SantaWalk(before)) + multiset(RobotWalk(before));
    TallyStep(m, ms, q);
    assert multiset(SantaWalk(before)) + multiset(RobotWalk(before) + [q]) == ms + multiset{q};
  }

  /** `part_two`: Santa takes the arrows at even positions and Robo-Santa
      those at odd positions; the houses either of them visits. */
  method PartTwo(input: string) returns (r: Option<nat>)
    ensures !Arrows(input) ==> r == None
    ensures Arrows(input) ==> r == Some(|PairHouses(input)|)
  {
    var m: map<Pos, int> := map[];
    var santa, robot := Origin, Origin;
    m := Increment(m, santa);
    m := Increment(m, robot);
    var i := 0;
    assert input[..0] == [];
    while i < |input|
      invariant PairState(input, i, santa, robot, m)
    {
      var c := input[i];
      if !IsArrow(c) {
        return None;
      }
      if i % 2 == 0 {
        SantaStep(input, i, santa, robot, m);
        santa := Move(santa, c);
        m := Increment(m, santa);
      } else {
        RobotStep(input, i, santa, robot, m);
        robot := Move(robot, c);
        m := Increment(m, robot);
      }
      i := i + 1;
    }
    assert input[..i] == input;
    TallySize(m, SantaWalk(input), RobotWalk(input));
    return Some(|m|);
  }

  // ---------------------------------------------------------------
  // Properties

  /** The map's size is the number of different houses on the two walks. */
  lemma TallySize(m: map<Pos, int>, w: seq<Pos>, v: seq<Pos>)
    requires Tally(m, multiset(w) + multiset(v))
    ensures |m| == |Houses(w) + Houses(v)|
  {
    assert m.Keys == Houses(w) + Houses(v);
  }

  /** A walk of n steps reaches at most n + 1 houses, and at least one. */
  lemma {:induction false} HousesBound(w: seq<Pos>)
    ensures |Houses(w)| <= |w|
    ensures |w| > 0 ==> w[0] in Houses(w) && |Houses(w)| >= 1
  {
    if |w| > 0 {
      var init := w[..|w| - 1];
      HousesBound(init);
      assert w == init + [w[|w| - 1]];
      assert Houses(w) == Houses(init) + {w[|w| - 1]};
    }
  }

  /** A walk that never comes back reaches as many houses as it has steps
      plus one. */
  lemma {:induction false} HousesDistinct(w: seq<Pos>)
    requires forall i, j :: 0 <= i < j < |w| ==> w[i] != w[j]
    ensures |Houses(w)| == |w|
  {
    if |w| > 0 {
      var init := w[..|w| - 1];
      HousesDistinct(init);
      assert w == init + [w[|w| - 1]];
      assert Houses(w) == Houses(init) + {w[|w| - 1]};
      assert w[|w| - 1] !in Houses(init);
    }
  }

  /** The origin always gets a present, and a route of n arrows reaches
      at most n + 1 houses. */
  lemma SantaBounds(s: string)
    requires Arrows(s)
    ensures Origin in SantaHouses(s)
    ensures 1 <= |SantaHouses(s)| <= |s| + 1
  {
    HousesBound(Walk(Origin, s));
  }

  /** With two walkers the origin still gets a present, and n arrows reach
      at most n + 1 houses (both start on the origin). */
  lemma PairBounds(s: string)
    requires Arrows(s)
    ensures Origin in PairHouses(s)
    ensures 1 <= |PairHouses(s)| <= |s| + 1
  {
    ArrowsOfPart(s);
    var w, v := Walk(Origin, Evens(s)), Walk(Origin, Odds(s));
    var both := w + v[1..];
    assert v == [v[0]] + v[1..];
    assert Houses(w) + Houses(v) == Houses(both);
    HousesBound(both);
  }

  /** Following more arrows never takes a present back. */
  lemma {:induction false} WalkPrefix(start: Pos, s: string, t: string)
    requires Arrows(s + t)
    ensures Arrows(s)
    ensures Walk(start, s) == Walk(start, s + t)[..|s| + 1]
    decreases |t|
  {
    assert forall i :: 0 <= i < |s| ==> s[i] == (s + t)[i];
    if |t| == 0 {
      assert s + t == s;
    } else {
      var init := t[..|t| - 1];
      assert (s + t)[..|s + t| - 1] == s + init;
      assert forall i :: 0 <= i < |s + init| ==> (s + init)[i] == (s + t)[i];
      WalkPrefix(start, s, init);
      var w := Walk(start, s + init);
      assert Walk(start, s + t) == w + [Move(w[|w| - 1], t[|t| - 1])];
      assert (w + [Move(w[|w| - 1], t[|t| - 1])])[..|s| + 1] == w[..|s| + 1];
    }
  }

  lemma SantaHousesGrow(s: string, t: string)
    requires Arrows(s + t)
    ensures Arrows(s)
    ensures SantaHouses(s) <= SantaHouses(s + t)
  {
    WalkPrefix(Origin, s, t);
  }

  /** The counter test: a key inserted at 0 and bumped once reads 1, a new
      key bumped twice reads 2. */
  lemma IncrementSample()
    ensures var m := Increment(Increment(Increment(map[(0, 0) := 0], (0, 0)), (1, 1)), (1, 1));
      m[(0, 0)] == 1 && m[(1, 1)] == 2
  {
  }

  /** The walk is the only sequence that starts at the start and takes one
      arrow per step. */
  lemma {:induction false} WalkUnique(start: Pos, s: string, w: seq<Pos>)
    requires Arrows(s) && |w| == |s| + 1 && w[0] == start
    requires forall k :: 0 <= k < |s| ==> w[k + 1] == Move(w[k], s[k])
    ensures Walk(start, s) == w
  {
    if |s| > 0 {
      var n := |s| - 1;
      WalkUnique(start, s[..n], w[..n + 1]);
      assert w == w[..n + 1] + [w[n + 1]];
    }
  }

  /** Santa's and Robo-Santa's shares are determined by their arrows. */
  lemma PartsOf(s: string, evens: string, odds: string)
    requires |evens| == (|s| + 1) / 2 && |odds| == |s| / 2
    requires forall k :: 0 <= k < |evens| ==> evens[k] == s[2 * k]
    requires forall k :: 0 <= k < |odds| ==> odds[k] == s[2 * k + 1]
    ensures Evens(s) == evens && Odds(s) == odds
  {
    PartsAt(s);
  }

  /** The sample routes. */
  const Square: string := "^>v<"
  const UpDown: string := "^" + "v"
  const Shuttle: string := "^v^v^v" + "^v^v"

  /** The samples of `part_one`. */
  lemma SampleOneA()
    ensures |SantaHouses(">")| == 2
  {
    WalkUnique(Origin, ">", [(0, 0), (1, 0)]);
    assert SantaHouses(">") == {(0, 0), (1, 0)};
  }

  lemma SampleOneB()
    ensures |SantaHouses("^>v<")| == 4
  {
    WalkUnique(Origin, "^>v<", [(0, 0), (0, 1), (1, 1), (1, 0), (0, 0)]);
    assert SantaHouses("^>v<") == {(0, 0), (0, 1), (1, 1), (1, 0)};
  }

  lemma SampleOneC()
    ensures |SantaHouses("^v^v^v^v^v")| == 2
  {
    var w := [(0, 0), (0, 1), (0, 0), (0, 1), (0, 0), (0, 1), (0, 0), (0, 1), (0, 0), (0, 1), (0, 0)];
    WalkUnique(Origin, "^v^v^v^v^v", w);
    assert SantaHouses("^v^v^v^v^v") == {(0, 0), (0, 1)};
  }

  /** Part two's houses, from each walker's share of the arrows and the
      walk it makes. */
  lemma PairHousesOf(s: string, evens: string, odds: string, w: seq<Pos>, v: seq<Pos>)
    requires |evens| == (|s| + 1) / 2 && |odds| == |s| / 2
    requires forall k :: 0 <= k < |evens| ==> evens[k] == s[2 * k]
    requires forall k :: 0 <= k < |odds| ==> odds[k] == s[2 * k + 1]
    requires Arrows(s)
    requires |w| == |evens| + 1 && w[0] == Origin
    requires forall k :: 0 <= k < |evens| ==> w[k + 1] == Move(w[k], evens[k])
    requires |v| == |odds| + 1 && v[0] == Origin
    requires forall k :: 0 <= k < |odds| ==> v[k + 1] == Move(v[k], odds[k])
    ensures PairHouses(s) == Houses(w) + Houses(v)
  {
    PartsOf(s, evens, odds);
    ArrowsOfPart(s);
    WalkUnique(Origin, evens, w);
    WalkUnique(Origin, odds, v);
  }

  /** Part two's count, from each walker's share, the walk it makes and
      the houses of both walks listed once each. */
  lemma PairCount(s: string, evens: string, odds: string, w: seq<Pos>, v: seq<Pos>, houses: seq<Pos>)
    requires |evens| == (|s| + 1) / 2 && |odds| == |s| / 2
    requires forall k :: 0 <= k < |evens| ==> evens[k] == s[2 * k]
    requires forall k :: 0 <= k < |odds| ==> odds[k] == s[2 * k + 1]
    requires Arrows(s)
    requires |w| == |evens| + 1 && w[0] == Origin
    requires forall k :: 0 <= k < |evens| ==> w[k + 1] == Move(w[k], evens[k])
    requires |v| == |odds| + 1 && v[0] == Origin
    requires forall k :: 0 <= k < |odds| ==> v[k + 1] == Move(v[k], odds[k])
    requires forall p :: p in w || p in v <==> p in houses
    requires forall i, j :: 0 <= i < j < |houses| ==> houses[i] != houses[j]
    ensures |PairHouses(s)| == |houses|
  {
    PairHousesOf(s, evens, odds, w, v);
    assert Houses(w) + Houses(v) == Houses(houses);
    HousesDistinct(houses);
  }

  /** The samples of `part_two`. */
  lemma SampleTwoA()
    ensures |PairHouses(UpDown)| == 3
  {
    var w, v := [(0, 0), (0, 1)], [(0, 0), (0, -1)];
    PairCount(UpDown, "^", "v", w, v, [(0, 0), (0, 1), (0, -1)]);
  }

  lemma SampleTwoB()
    ensures |PairHouses(Square)| == 3
  {
    var w, v := [(0, 0), (0, 1), (0, 0)], [(0, 0), (1, 0), (0, 0)];
    PairCount(Square, "^v", "><", w, v, [(0, 0), (0, 1), (1, 0)]);
  }

  lemma SampleTwoC()
    ensures |PairHouses(Shuttle)| == 11
  {
    var w := [(0, 0), (0, 1), (0, 2), (0, 3), (0, 4), (0, 5)];
    var v := [(0, 0), (0, -1), (0, -2), (0, -3), (0, -4), (0, -5)];
    PairCount(Shuttle, "^^^^^", "vvvvv", w, v, w + v[1..]);
  }
}

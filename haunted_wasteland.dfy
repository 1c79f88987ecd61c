/** Day 8 of 2023, "Haunted Wasteland": a network of nodes, each with a
    left and a right neighbour, is walked by following a string of 'L' and
    'R' instructions over and over. Part one counts the steps from "AAA" to
    "ZZZ"; part two folds `lcm` over the step counts from every node whose
    name ends in 'A' to one ending in 'Z'. */
module HauntedWasteland {
  import opened Wrappers
  import MonkeyInTheMiddle

  /** `u64::MAX`, where `compute_path_length` gives up. */
  const U64Max: nat := 0xFFFF_FFFF_FFFF_FFFF

  /** `u32::MAX`, past which `part_two_old`'s counter overflows. */
  const U32Max: nat := 0xFFFF_FFFF

  datatype Node = Node(name: string, left: string, right: string)

  /** The node map, keyed by name. */
  type Network = map<string, Node>

  /** How a walk ends: after a number of steps, at the step limit
      (`PathLengthError`), or in a panic (an instruction other than 'L' or
      'R', or a neighbour missing from the map). */
  datatype Length = Reached(steps: nat) | TooLong | Panic

  predicate EndsWith(s: string, suffix: string)
  {
    |suffix| <= |s| && s[|s| - |suffix|..] == suffix
  }

  /** One step of `compute_path_length`: the left or right neighbour,
      looked up in the map. */
  function Step(nodes: Network, node: Node, c: char): Option<Node>
  {
    var next := if c == 'L' then node.left else node.right;
    if (c == 'L' || c == 'R') && next in nodes then Some(nodes[next]) else None
  }

  // ---------------------------------------------------------------
  // The walk of one node

  /** The node reached after `k` steps, the instructions cycled. */
  function NodeAfter(nodes: Network, start: Node, instrs: string, k: nat): Option<Node>
    requires |instrs| > 0
  {
    if k == 0 then Some(start)
    else
      match NodeAfter(nodes, start, instrs, k - 1)
      case None => None
      case Some(node) => Step(nodes, node, instrs[(k - 1) % |instrs|])
  }

  /** The first `n` nodes of the walk exist and none satisfies the
      condition. */
  predicate Clear(nodes: Network, start: Node, instrs: string, cond: string, n: nat)
    requires |instrs| > 0
  {
    forall m :: 0 <= m < n ==>
      NodeAfter(nodes, start, instrs, m).Some? && !EndsWith(NodeAfter(nodes, start, instrs, m).value.name, cond)
  }

  /** Step `n` is the first node of the walk that satisfies the condition. */
  predicate Arrives(nodes: Network, start: Node, instrs: string, cond: string, n: nat)
    requires |instrs| > 0
  {
    Clear(nodes, start, instrs, cond, n) &&
    NodeAfter(nodes, start, instrs, n).Some? && EndsWith(NodeAfter(nodes, start, instrs, n).value.name, cond)
  }

  /** The loop of `compute_path_length` from step `count` on. */
  function PathFrom(nodes: Network, node: Node, instrs: string, cond: string, count: nat): Length
    requires |instrs| > 0 && count <= U64Max
    decreases U64Max - count
  {
    if EndsWith(node.name, cond) then Reached(count)
    else if count == U64Max then TooLong
    else
      match Step(nodes, node, instrs[count % |instrs|])
      case None => Panic
      case Some(next) => PathFrom(nodes, next, instrs, cond, count + 1)
  }

  /** `compute_path_length`: with no instructions the cycle is empty and
      the count is 0. */
  function PathLength(nodes: Network, start: Node, instrs: string, cond: string): Length
  {
    if |instrs| == 0 then Reached(0) else PathFrom(nodes, start, instrs, cond, 0)
  }

  /** From step `count` of a walk that has not yet arrived, the loop ends
      after `n` steps exactly when step `n` is the first that satisfies the
      condition, and at the limit exactly when no step up to the limit
      does. */
  lemma {:induction false} PathFromMeaning(nodes: Network, start: Node, instrs: string, cond: string, count: nat)
    requires |instrs| > 0 && count <= U64Max
    requires Clear(nodes, start, instrs, cond, count) && NodeAfter(nodes, start, instrs, count).Some?
    ensures var r := PathFrom(nodes, NodeAfter(nodes, start, instrs, count).value, instrs, cond, count);
      (r.Reached? ==> count <= r.steps <= U64Max) &&
      (forall n :: count <= n <= U64Max ==> (r == Reached(n) <==> Arrives(nodes, start, instrs, cond, n))) &&
      (r.TooLong? <==> Clear(nodes, start, instrs, cond, U64Max + 1))
    decreases U64Max - count
  {
    var node := NodeAfter(nodes, start, instrs, count).value;
    var r := PathFrom(nodes, node, instrs, cond, count);
    if EndsWith(node.name, cond) {
      assert Arrives(nodes, start, instrs, cond, count);
      forall n | count < n <= U64Max + 1 ensures !Clear(nodes, start, instrs, cond, n) {
        assert 0 <= count < n;
      }
    } else if count == U64Max {
      assert Clear(nodes, start, instrs, cond, U64Max + 1);
    } else {
      var next := Step(nodes, node, instrs[count % |instrs|]);
      assert NodeAfter(nodes, start, instrs, count + 1) == next;
      assert !Arrives(nodes, start, instrs, cond, count);
      if next.None? {
        forall n | count < n <= U64Max + 1
          ensures !Arrives(nodes, start, instrs, cond, n)
          ensures n > count + 1 ==> !Clear(nodes, start, instrs, cond, n)
        {
          if n > count + 1 {
            assert 0 <= count + 1 < n;
          }
        }
        assert !Clear(nodes, start, instrs, cond, U64Max + 1);
      } else {
        assert Clear(nodes, start, instrs, cond, count + 1);
        PathFromMeaning(nodes, start, instrs, cond, count + 1);
      }
    }
  }

  /** `compute_path_length` answers `n` exactly when step `n` of the walk
      is the first whose name ends with the condition, and gives up
      exactly when no step up to `u64::MAX` does. */
  lemma PathLengthMeaning(nodes: Network, start: Node, instrs: string, cond: string)
    requires |instrs| > 0
    ensures var r := PathLength(nodes, start, instrs, cond);
      (r.Reached? ==> r.steps <= U64Max && Arrives(nodes, start, instrs, cond, r.steps)) &&
      (forall n: nat :: n <= U64Max && Arrives(nodes, start, instrs, cond, n) ==> r == Reached(n)) &&
      (r.TooLong? <==> Clear(nodes, start, instrs, cond, U64Max + 1))
  {
    PathFromMeaning(nodes, start, instrs, cond, 0);
  }

  /** A start that already satisfies the condition is 0 steps away, and so
      is every start when there are no instructions. */
  lemma PathLengthZero(nodes: Network, start: Node, instrs: string, cond: string)
    requires EndsWith(start.name, cond) || |instrs| == 0
    ensures PathLength(nodes, start, instrs, cond) == Reached(0)
  {
  }

  /** `compute_path_length`: the loop over the cycled instructions, which
      checks the condition, then the limit, then takes the step. */
  method ComputePathLength(start: Node, instructions: string, nodes: Network, condition: string) returns (r: Length)
    ensures r == PathLength(nodes, start, instructions, condition)
  {
    if |instructions| == 0 {
      return Reached(0);
    }
    var count := 0;
    var node := start;
    while true
      invariant count <= U64Max
      invariant PathFrom(nodes, node, instructions, condition, count) == PathFrom(nodes, start, instructions, condition, 0)
      decreases U64Max - count
    {
      var instruction := instructions[count % |instructions|];
      if EndsWith(node.name, condition) {
        return Reached(count);
      }
      if count == U64Max {
        return TooLong;
      }
      if instruction == 'L' && node.left in nodes {
        node := nodes[node.left];
      } else if instruction == 'R' && node.right in nodes {
        node := nodes[node.right];
      } else {
        return Panic;
      }
      count := count + 1;
    }
  }

  // ---------------------------------------------------------------
  // The node map

  /** The map built by inserting the nodes in order: a later node replaces
      an earlier one of the same name. */
  function NetworkOf(lines: seq<Node>): Network
  {
    if |lines| == 0 then map[]
    else NetworkOf(lines[..|lines| - 1])[lines[|lines| - 1].name := lines[|lines| - 1]]
  }

  /** Node `i` is the last of the node lines named `name`. */
  predicate LastNamed(lines: seq<Node>, name: string, i: int)
  {
    0 <= i < |lines| && lines[i].name == name && forall j :: i < j < |lines| ==> lines[j].name != name
  }

  /** Every node's name is a key of the map. */
  lemma {:induction false} NetworkOfKeys(lines: seq<Node>)
    ensures forall i :: 0 <= i < |lines| ==> lines[i].name in NetworkOf(lines)
  {
    if |lines| > 0 {
      var init := lines[..|lines| - 1];
      NetworkOfKeys(init);
      forall i | 0 <= i < |lines| - 1 ensures lines[i].name in NetworkOf(lines) {
        assert lines[i] == init[i];
      }
    }
  }

  /** Every key is some node's name, and the node kept under it is the
      last one of that name. */
  lemma {:induction false} NetworkOfLast(lines: seq<Node>)
    ensures forall name :: name in NetworkOf(lines) ==>
      exists i :: LastNamed(lines, name, i) && NetworkOf(lines)[name] == lines[i]
  {
    if |lines| > 0 {
      var init := lines[..|lines| - 1];
      NetworkOfLast(init);
      var last := |lines| - 1;
      assert NetworkOf(lines) == NetworkOf(init)[lines[last].name := lines[last]];
      forall name | name in NetworkOf(lines)
        ensures exists i :: LastNamed(lines, name, i) && NetworkOf(lines)[name] == lines[i]
      {
        if name != lines[last].name {
          assert name in NetworkOf(init) && NetworkOf(lines)[name] == NetworkOf(init)[name];
          var i :| LastNamed(init, name, i) && NetworkOf(init)[name] == init[i];
          LastNamedKept(lines, name, i);
        } else {
          assert LastNamed(lines, name, last);
        }
      }
    }
  }

  /** A node that was the last of its name stays so when a node of another
      name follows. */
  lemma LastNamedKept(lines: seq<Node>, name: string, i: int)
    requires |lines| > 0 && lines[|lines| - 1].name != name
    requires LastNamed(lines[..|lines| - 1], name, i)
    ensures LastNamed(lines, name, i) && lines[i] == lines[..|lines| - 1][i]
  {
  }

  /** Every node of the map is kept under its own name. */
  lemma {:induction false} NetworkOfNames(lines: seq<Node>)
    ensures forall name :: name in NetworkOf(lines) ==> NetworkOf(lines)[name].name == name
  {
    if |lines| > 0 {
      NetworkOfNames(lines[..|lines| - 1]);
    }
  }

  /** The loop of `part_one` and `part_two` that fills the node map. */
  method BuildNetwork(lines: seq<Node>) returns (nodes: Network)
    ensures nodes == NetworkOf(lines)
  {
    nodes := map[];
    for i := 0 to |lines|
      invariant nodes == NetworkOf(lines[..i])
    {
      assert lines[..i + 1][..i] == lines[..i];
      nodes := nodes[lines[i].name := lines[i]];
    }
    assert lines[..|lines|] == lines;
  }

  // ---------------------------------------------------------------
  // Part one

  /** `part_one` on the instructions and the parsed node lines: the steps
      from "AAA" to "ZZZ"; `None` where the source panics. */
  function StepsToZZZ(instrs: string, lines: seq<Node>): Option<nat>
  {
    var nodes := NetworkOf(lines);
    if "AAA" !in nodes then None
    else
      match PathLength(nodes, nodes["AAA"], instrs, "ZZZ")
      case Reached(n) => Some(n)
      case _ => None
  }

  /** Part one's answer, when there is one, is the first step of the walk
      from "AAA" that reaches "ZZZ". */
  lemma StepsToZZZMeaning(instrs: string, lines: seq<Node>)
    requires |instrs| > 0
    ensures var nodes := NetworkOf(lines);
      StepsToZZZ(instrs, lines).Some? ==>
        "AAA" in nodes && Arrives(nodes, nodes["AAA"], instrs, "ZZZ", StepsToZZZ(instrs, lines).value)
  {
    var nodes := NetworkOf(lines);
    if "AAA" in nodes {
      PathLengthMeaning(nodes, nodes["AAA"], instrs, "ZZZ");
    }
  }

  method PartOne(instructions: string, lines: seq<Node>) returns (r: Option<nat>)
    ensures r == StepsToZZZ(instructions, lines)
  {
    var nodes := BuildNetwork(lines);
    if "AAA" !in nodes {
      return None;
    }
    var length := ComputePathLength(nodes["AAA"], instructions, nodes, "ZZZ");
    r := if length.Reached? then Some(length.steps) else None;
  }

  // ---------------------------------------------------------------
  // Part two

  /** `values` lists the nodes of the map, each once, in the map's
      iteration order. */
  predicate Enumerates(nodes: Network, values: seq<Node>)
  {
    (forall i :: 0 <= i < |values| ==> values[i].name in nodes && nodes[values[i].name] == values[i]) &&
    (forall name :: name in nodes ==> exists i :: 0 <= i < |values| && values[i].name == name) &&
    (forall i, j :: 0 <= i < j < |values| ==> values[i].name != values[j].name)
  }

  /** The step counts from every node of `values` whose name ends in 'A'
      to one ending in 'Z', in order; `None` where one of them panics or
      gives up. */
  function GhostLengths(nodes: Network, values: seq<Node>, instrs: string): Option<seq<nat>>
  {
    if |values| == 0 then Some([])
    else
      match GhostLengths(nodes, values[..|values| - 1], instrs)
      case None => None
      case Some(ls) =>
        var v := values[|values| - 1];
        if !EndsWith(v.name, "A") then Some(ls)
        else
          match PathLength(nodes, v, instrs, "Z")
          case Reached(n) => Some(ls + [n])
          case _ => None
  }

  /** Node `i` of `values` is a start, and its walk first reaches a name
      ending in 'Z' at step `n`. */
  predicate StartArrives(nodes: Network, values: seq<Node>, instrs: string, i: int, n: nat)
    requires |instrs| > 0
  {
    0 <= i < |values| && EndsWith(values[i].name, "A") && Arrives(nodes, values[i], instrs, "Z", n)
  }

  /** With instructions, every counted start is at least one step from its
      end, since a name ending in 'A' does not end in 'Z'; each count is
      the first arrival of that start's walk. */
  lemma {:induction false} GhostLengthsMeaning(nodes: Network, values: seq<Node>, instrs: string)
    requires |instrs| > 0 && GhostLengths(nodes, values, instrs).Some?
    ensures var ls := GhostLengths(nodes, values, instrs).value;
      forall k :: 0 <= k < |ls| ==> ls[k] > 0 && exists i :: StartArrives(nodes, values, instrs, i, ls[k])
  {
    if |values| > 0 {
      var init := values[..|values| - 1];
      GhostLengthsMeaning(nodes, init, instrs);
      var ls := GhostLengths(nodes, init, instrs).value;
      var v := values[|values| - 1];
      forall k | 0 <= k < |ls| ensures exists i :: StartArrives(nodes, values, instrs, i, ls[k]) {
        var i :| StartArrives(nodes, init, instrs, i, ls[k]);
        assert values[i] == init[i];
        assert StartArrives(nodes, values, instrs, i, ls[k]);
      }
      if EndsWith(v.name, "A") {
        PathLengthMeaning(nodes, v, instrs, "Z");
        var n := PathLength(nodes, v, instrs, "Z").steps;
        assert v.name[|v.name| - 1] == 'A';
        assert !EndsWith(v.name, "Z");
        assert n > 0;
        var all := GhostLengths(nodes, values, instrs).value;
        assert all == ls + [n];
        assert StartArrives(nodes, values, instrs, |values| - 1, all[|ls|]);
      }
    }
  }

  /** `part_two`: the `lcm` fold from 1 over the step counts, in the map's
      iteration order `values`. */
  function GhostSteps(instrs: string, lines: seq<Node>, values: seq<Node>): Option<int>
  {
    match GhostLengths(NetworkOf(lines), values, instrs)
    case None => None
    case Some(ls) => Some(MonkeyInTheMiddle.LcmOf(ls))
  }

  /** With instructions, part two's answer is a positive multiple of every
      start's step count. */
  lemma GhostStepsMultiple(instrs: string, lines: seq<Node>, values: seq<Node>)
    requires |instrs| > 0 && GhostSteps(instrs, lines, values).Some?
    ensures var ls := GhostLengths(NetworkOf(lines), values, instrs).value;
      GhostSteps(instrs, lines, values).value > 0 &&
      forall k :: 0 <= k < |ls| ==> ls[k] > 0 && GhostSteps(instrs, lines, values).value % ls[k] == 0
  {
    var ls := GhostLengths(NetworkOf(lines), values, instrs).value;
    GhostLengthsMeaning(NetworkOf(lines), values, instrs);
    MonkeyInTheMiddle.LcmOfMultiple(ls);
  }

  /** The source's test of the `lcm` fold: over 1, 3, 4 and 2 it is 12. */
  lemma LcmFoldSample()
    ensures MonkeyInTheMiddle.LcmOf([1, 3, 4, 2]) == 12
  {
    var ds := [1, 3, 4, 2];
    assert ds[..3] == [1, 3, 4] && ds[..3][..2] == [1, 3] && ds[..1] == [1] && [1, 3][..1] == [1];
    assert MonkeyInTheMiddle.Gcd(1, 3) == 1;
    assert MonkeyInTheMiddle.LcmOf([1]) == 1;
    assert MonkeyInTheMiddle.LcmOf([1, 3]) == 3;
    assert MonkeyInTheMiddle.Gcd(3, 4) == 1;
    assert MonkeyInTheMiddle.LcmOf([1, 3, 4]) == 12;
    assert MonkeyInTheMiddle.Gcd(12, 2) == 2;
  }

  /** `part_two`: the map filled, then every start ending in 'A' walked in
      the map's iteration order `values`, then the `lcm` fold. */
  method PartTwo(instructions: string, lines: seq<Node>, values: seq<Node>) returns (r: Option<int>)
    requires Enumerates(NetworkOf(lines), values)
    ensures r == GhostSteps(instructions, lines, values)
  {
    var nodes := BuildNetwork(lines);
    var lengths: seq<nat> := [];
    for i := 0 to |values|
      invariant GhostLengths(nodes, values[..i], instructions) == Some(lengths)
    {
      assert values[..i + 1][..i] == values[..i];
      var v := values[i];
      if EndsWith(v.name, "A") {
        var length := ComputePathLength(v, instructions, nodes, "Z");
        if !length.Reached? {
          GhostLengthsStop(nodes, values, instructions, i + 1);
          return None;
        }
        lengths := lengths + [length.steps];
      }
    }
    assert values[..|values|] == values;
    r := Some(MonkeyInTheMiddle.LcmOf(lengths));
  }

  /** Once a start fails, the step counts do. */
  lemma {:induction false} GhostLengthsStop(nodes: Network, values: seq<Node>, instrs: string, i: nat)
    requires i <= |values| && GhostLengths(nodes, values[..i], instrs).None?
    ensures GhostLengths(nodes, values, instrs).None?
    decreases |values| - i
  {
    if i < |values| {
      assert values[..i + 1][..i] == values[..i];
      GhostLengthsStop(nodes, values, instrs, i + 1);
    } else {
      assert values[..i] == values;
    }
  }

  // ---------------------------------------------------------------
  // The earlier part two: every start walked in lockstep

  /** One name's next name: its node looked up, then its left or right
      neighbour's name. */
  function Next(nodes: Network, name: string, c: char): Option<string>
  {
    if name !in nodes || (c != 'L' && c != 'R') then None
    else if c == 'L' then Some(nodes[name].left)
    else Some(nodes[name].right)
  }

  /** One lockstep step of every current name. */
  function StepAll(nodes: Network, names: seq<string>, c: char): Option<seq<string>>
  {
    if |names| == 0 then Some([])
    else
      match StepAll(nodes, names[..|names| - 1], c)
      case None => None
      case Some(ns) =>
        match Next(nodes, names[|names| - 1], c)
        case None => None
        case Some(n) => Some(ns + [n])
  }

  /** A lockstep step succeeds exactly when every name steps, and then
      moves each name to its own next name. */
  lemma {:induction false} StepAllMeaning(nodes: Network, names: seq<string>, c: char)
    ensures StepAll(nodes, names, c).Some? <==> forall i :: 0 <= i < |names| ==> Next(nodes, names[i], c).Some?
    ensures StepAll(nodes, names, c).Some? ==>
      |StepAll(nodes, names, c).value| == |names| &&
      forall i :: 0 <= i < |names| ==> StepAll(nodes, names, c).value[i] == Next(nodes, names[i], c).value
  {
    if |names| > 0 {
      var init := names[..|names| - 1];
      StepAllMeaning(nodes, init, c);
      assert forall i :: 0 <= i < |init| ==> init[i] == names[i];
    }
  }

  predicate AllEndInZ(names: seq<string>)
  {
    forall i :: 0 <= i < |names| ==> EndsWith(names[i], "Z")
  }

  /** The loop of `part_two_old` from step `count` on; the counter's
      overflow past `u32::MAX` panics. */
  function LockstepFrom(nodes: Network, names: seq<string>, instrs: string, count: nat): Length
    requires |instrs| > 0 && count <= U32Max
    decreases U32Max - count
  {
    if AllEndInZ(names) then Reached(count)
    else
      match StepAll(nodes, names, instrs[count % |instrs|])
      case None => Panic
      case Some(next) => if count == U32Max then Panic else LockstepFrom(nodes, next, instrs, count + 1)
  }

  /** The names of every start after `k` lockstep steps. */
  function NamesAfter(nodes: Network, starts: seq<string>, instrs: string, k: nat): Option<seq<string>>
    requires |instrs| > 0
  {
    if k == 0 then Some(starts)
    else
      match NamesAfter(nodes, starts, instrs, k - 1)
      case None => None
      case Some(names) => StepAll(nodes, names, instrs[(k - 1) % |instrs|])
  }

  /** One start's name after `k` steps of its own walk. */
  function NameAfter(nodes: Network, start: string, instrs: string, k: nat): Option<string>
    requires |instrs| > 0
  {
    if k == 0 then Some(start)
    else
      match NameAfter(nodes, start, instrs, k - 1)
      case None => None
      case Some(name) => Next(nodes, name, instrs[(k - 1) % |instrs|])
  }

  /** Walking in lockstep is walking each start on its own: the lockstep
      names exist exactly when every start's walk does, and are those
      walks' names. */
  lemma {:induction false} NamesAfterMeaning(nodes: Network, starts: seq<string>, instrs: string, k: nat)
    requires |instrs| > 0
    ensures NamesAfter(nodes, starts, instrs, k).Some? <==>
      forall i :: 0 <= i < |starts| ==> NameAfter(nodes, starts[i], instrs, k).Some?
    ensures NamesAfter(nodes, starts, instrs, k).Some? ==>
      |NamesAfter(nodes, starts, instrs, k).value| == |starts| &&
      forall i :: 0 <= i < |starts| ==> NameAfter(nodes, starts[i], instrs, k) == Some(NamesAfter(nodes, starts, instrs, k).value[i])
    decreases k
  {
    if k > 0 {
      NamesAfterMeaning(nodes, starts, instrs, k - 1);
      var c := instrs[(k - 1) % |instrs|];
      if NamesAfter(nodes, starts, instrs, k - 1).Some? {
        StepAllMeaning(nodes, NamesAfter(nodes, starts, instrs, k - 1).value, c);
      } else {
        var i :| 0 <= i < |starts| && NameAfter(nodes, starts[i], instrs, k - 1).None?;
        assert NameAfter(nodes, starts[i], instrs, k).None?;
      }
    }
  }

  /** On a map that keeps every node under its own name, a start's walk
      by names follows `compute_path_length`'s walk by nodes. */
  lemma {:induction false} NameAfterFollowsNodes(nodes: Network, start: string, instrs: string, k: nat)
    requires |instrs| > 0 && start in nodes
    requires forall name :: name in nodes ==> nodes[name].name == name
    requires NodeAfter(nodes, nodes[start], instrs, k).Some?
    ensures NameAfter(nodes, start, instrs, k) == Some(NodeAfter(nodes, nodes[start], instrs, k).value.name)
    decreases k
  {
    if k > 0 {
      NameAfterFollowsNodes(nodes, start, instrs, k - 1);
    }
  }

  /** The lockstep loop ends after `n` steps exactly when step `n` is the
      first at which every name ends in 'Z'. */
  lemma {:induction false} LockstepFromMeaning(nodes: Network, starts: seq<string>, instrs: string, count: nat)
    requires |instrs| > 0 && count <= U32Max
    requires NamesAfter(nodes, starts, instrs, count).Some?
    requires forall m :: 0 <= m < count ==>
      NamesAfter(nodes, starts, instrs, m).Some? && !AllEndInZ(NamesAfter(nodes, starts, instrs, m).value)
    ensures var r := LockstepFrom(nodes, NamesAfter(nodes, starts, instrs, count).value, instrs, count);
      r.Reached? ==>
        count <= r.steps <= U32Max && NamesAfter(nodes, starts, instrs, r.steps).Some? &&
        AllEndInZ(NamesAfter(nodes, starts, instrs, r.steps).value) &&
        forall m :: 0 <= m < r.steps ==>
          NamesAfter(nodes, starts, instrs, m).Some? && !AllEndInZ(NamesAfter(nodes, starts, instrs, m).value)
    decreases U32Max - count
  {
    var names := NamesAfter(nodes, starts, instrs, count).value;
    if !AllEndInZ(names) && count < U32Max {
      var next := StepAll(nodes, names, instrs[count % |instrs|]);
      if next.Some? {
        assert NamesAfter(nodes, starts, instrs, count + 1) == next;
        LockstepFromMeaning(nodes, starts, instrs, count + 1);
      }
    }
  }

  /** The lockstep answer: with no instructions the loop never runs and
      the count is 0. */
  function Lockstep(nodes: Network, starts: seq<string>, instrs: string): Length
  {
    if |instrs| == 0 then Reached(0) else LockstepFrom(nodes, starts, instrs, 0)
  }

  /** The start's own walk is at a name ending in 'Z' after `k` steps. */
  predicate AtZ(nodes: Network, start: string, instrs: string, k: nat)
    requires |instrs| > 0
  {
    NameAfter(nodes, start, instrs, k).Some? && EndsWith(NameAfter(nodes, start, instrs, k).value, "Z")
  }

  /** After `k` steps some start's walk is at a name not ending in 'Z'. */
  predicate SomeNotAtZ(nodes: Network, starts: seq<string>, instrs: string, k: nat)
    requires |instrs| > 0
  {
    exists i :: 0 <= i < |starts| && NameAfter(nodes, starts[i], instrs, k).Some? &&
      !EndsWith(NameAfter(nodes, starts[i], instrs, k).value, "Z")
  }

  /** The lockstep answer, when there is one, is the first step at which
      every start's own walk is at a name ending in 'Z'. */
  lemma LockstepMeaning(nodes: Network, starts: seq<string>, instrs: string)
    requires |instrs| > 0
    ensures var r := Lockstep(nodes, starts, instrs);
      r.Reached? ==>
        (forall i :: 0 <= i < |starts| ==> AtZ(nodes, starts[i], instrs, r.steps)) &&
        forall m: nat :: m < r.steps ==> SomeNotAtZ(nodes, starts, instrs, m)
  {
    LockstepFromMeaning(nodes, starts, instrs, 0);
    var r := Lockstep(nodes, starts, instrs);
    if r.Reached? {
      NamesAfterMeaning(nodes, starts, instrs, r.steps);
      forall m: nat | m < r.steps ensures SomeNotAtZ(nodes, starts, instrs, m) {
        NamesAfterMeaning(nodes, starts, instrs, m);
        var names := NamesAfter(nodes, starts, instrs, m).value;
        var i :| 0 <= i < |names| && !EndsWith(names[i], "Z");
        assert NameAfter(nodes, starts[i], instrs, m) == Some(names[i]);
      }
    }
  }

  /** The names of the node lines ending in 'A', in line order. */
  function StartNames(lines: seq<Node>): (r: seq<string>)
    ensures forall i :: 0 <= i < |r| ==> EndsWith(r[i], "A")
  {
    if |lines| == 0 then []
    else StartNames(lines[..|lines| - 1]) + (if EndsWith(lines[|lines| - 1].name, "A") then [lines[|lines| - 1].name] else [])
  }

  /** One lockstep step, the loop over the current names. */
  method StepEach(nodes: Network, names: seq<string>, c: char) returns (r: Option<seq<string>>)
    ensures r == StepAll(nodes, names, c)
  {
    var next: seq<string> := [];
    for i := 0 to |names|
      invariant StepAll(nodes, names[..i], c) == Some(next)
    {
      assert names[..i + 1][..i] == names[..i];
      var n := Next(nodes, names[i], c);
      if n.None? {
        StepAllStop(nodes, names, c, i + 1);
        return None;
      }
      next := next + [n.value];
    }
    assert names[..|names|] == names;
    r := Some(next);
  }

  /** Once a name fails to step, the lockstep step does. */
  lemma {:induction false} StepAllStop(nodes: Network, names: seq<string>, c: char, i: nat)
    requires i <= |names| && StepAll(nodes, names[..i], c).None?
    ensures StepAll(nodes, names, c).None?
    decreases |names| - i
  {
    if i < |names| {
      assert names[..i + 1][..i] == names[..i];
      StepAllStop(nodes, names, c, i + 1);
    } else {
      assert names[..i] == names;
    }
  }

  /** `part_two_old`: every start ending in 'A' walked in lockstep until
      all are at names ending in 'Z'. */
  method PartTwoOld(instructions: string, lines: seq<Node>) returns (r: Length)
    ensures r == Lockstep(NetworkOf(lines), StartNames(lines), instructions)
  {
    var current := StartNames(lines);
    var nodes := BuildNetwork(lines);
    if |instructions| == 0 {
      return Reached(0);
    }
    var count := 0;
    while true
      invariant count <= U32Max
      invariant LockstepFrom(nodes, current, instructions, count) == Lockstep(nodes, StartNames(lines), instructions)
      decreases U32Max - count
    {
      var instruction := instructions[count % |instructions|];
      if AllEndInZ(current) {
        return Reached(count);
      }
      var next := StepEach(nodes, current, instruction);
      if next.None? || count == U32Max {
        return Panic;
      }
      current := next.value;
      count := count + 1;
    }
  }
}

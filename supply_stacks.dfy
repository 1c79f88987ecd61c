/** Day 5 of 2022, "Supply Stacks": crates are moved between stacks by a
    crane, one at a time in part one and a block at a time in part two;
    the answer is the top crate of every stack. Stacks are listed bottom
    to top and numbered from 1 in the instructions. */
module SupplyStacks {
  import opened Wrappers
  import opened Strings
  import opened StackParse

  type Stacks = seq<seq<char>>

  /** An instruction's 1-based stack number names a stack. */
  predicate ValidStack(stacks: Stacks, k: nat)
  {
    1 <= k <= |stacks|
  }

  /** One crate popped from stack `from` and pushed on stack `to`; `None`
      where a stack number is 0 or past the last stack, or `from` is empty,
      which panics in the source. */
  function MoveOne(stacks: Stacks, from: nat, to: nat): Option<Stacks>
  {
    if !ValidStack(stacks, from) || |stacks[from - 1]| == 0 then None
    else
      var f := stacks[from - 1];
      var popped := stacks[from - 1 := f[..|f| - 1]];
      if !ValidStack(stacks, to) then None
      else Some(popped[to - 1 := popped[to - 1] + [f[|f| - 1]]])
  }

  /** Part one's instruction: `n` single moves. */
  function MoveCrates(stacks: Stacks, n: nat, from: nat, to: nat): Option<Stacks>
    decreases n
  {
    if n == 0 then Some(stacks)
    else
      match MoveCrates(stacks, n - 1, from, to)
      case None => None
      case Some(s) => MoveOne(s, from, to)
  }

  /** Part two's instruction: the top `n` crates of `from` drained and
      appended to `to` in their order; `None` where a stack number is 0 or
      past the last stack or `from` holds fewer than `n` crates. */
  function MoveBlock(stacks: Stacks, n: nat, from: nat, to: nat): Option<Stacks>
  {
    if !ValidStack(stacks, from) then None
    else
      var f := stacks[from - 1];
      if n > |f| then None
      else
        var drained := stacks[from - 1 := f[..|f| - n]];
        if !ValidStack(stacks, to) then None
        else Some(drained[to - 1 := drained[to - 1] + f[|f| - n..]])
  }

  /** A sequence back to front. */
  function Reversed(s: seq<char>): (r: seq<char>)
    ensures |r| == |s| && forall i :: 0 <= i < |s| ==> r[i] == s[|s| - 1 - i]
  {
    if |s| == 0 then [] else Reversed(s[1..]) + [s[0]]
  }

  /** The stacks after moving the top `n` crates of a stack to another, in
      the given order. */
  function Moved(stacks: Stacks, from: nat, to: nat, n: nat, block: seq<char>): Stacks
    requires ValidStack(stacks, from) && ValidStack(stacks, to) && n <= |stacks[from - 1]|
  {
    var f := stacks[from - 1];
    stacks[from - 1 := f[..|f| - n]][to - 1 := stacks[to - 1] + block]
  }

  /** Between two different stacks, moving `n` crates one at a time lands
      the top `n` crates of `from` on `to` reversed, and leaves every other
      stack as it was. */
  lemma {:induction false} CrateByCrate(stacks: Stacks, n: nat, from: nat, to: nat)
    requires ValidStack(stacks, from) && ValidStack(stacks, to) && from != to
    requires n <= |stacks[from - 1]|
    ensures var f := stacks[from - 1];
      MoveCrates(stacks, n, from, to) == Some(Moved(stacks, from, to, n, Reversed(f[|f| - n..])))
    decreases n
  {
    var f := stacks[from - 1];
    if n > 0 {
      CrateByCrate(stacks, n - 1, from, to);
      var s := Moved(stacks, from, to, n - 1, Reversed(f[|f| - (n - 1)..]));
      assert s[from - 1] == f[..|f| - (n - 1)];
      assert s[from - 1][..|s[from - 1]| - 1] == f[..|f| - n];
      var r := Reversed(f[|f| - (n - 1)..]);
      assert f[|f| - n..][1..] == f[|f| - (n - 1)..];
      assert Reversed(f[|f| - n..]) == r + [f[|f| - n]];
      var popped := s[from - 1 := f[..|f| - n]];
      assert popped == stacks[from - 1 := f[..|f| - n]][to - 1 := stacks[to - 1] + r];
      assert MoveOne(s, from, to) == Some(popped[to - 1 := popped[to - 1] + [f[|f| - n]]]);
      assert popped[to - 1] + [f[|f| - n]] == stacks[to - 1] + Reversed(f[|f| - n..]);
      assert popped[to - 1 := stacks[to - 1] + Reversed(f[|f| - n..])]
          == Moved(stacks, from, to, n, Reversed(f[|f| - n..]));
    } else {
      assert f[..|f|] == f && stacks[to - 1] + [] == stacks[to - 1];
      assert stacks[from - 1 := f][to - 1 := stacks[to - 1]] == stacks;
    }
  }

  /** Between two different stacks, a block move lands the top `n` crates
      of `from` on `to` in their order. */
  lemma BlockAtOnce(stacks: Stacks, n: nat, from: nat, to: nat)
    requires ValidStack(stacks, from) && ValidStack(stacks, to) && from != to
    requires n <= |stacks[from - 1]|
    ensures var f := stacks[from - 1];
      MoveBlock(stacks, n, from, to) == Some(Moved(stacks, from, to, n, f[|f| - n..]))
  {
  }

  /** Moving crates one at a time from a non-empty stack onto itself
      changes nothing, however many moves. */
  lemma {:induction false} CratesOntoSelf(stacks: Stacks, n: nat, k: nat)
    requires ValidStack(stacks, k) && |stacks[k - 1]| > 0
    ensures MoveCrates(stacks, n, k, k) == Some(stacks)
    decreases n
  {
    if n > 0 {
      CratesOntoSelf(stacks, n - 1, k);
      var f := stacks[k - 1];
      assert f[..|f| - 1] + [f[|f| - 1]] == f;
      assert stacks[k - 1 := f[..|f| - 1]][k - 1 := f] == stacks;
    }
  }

  /** Draining a block and appending it back to the same stack changes
      nothing. */
  lemma BlockOntoSelf(stacks: Stacks, n: nat, k: nat)
    requires ValidStack(stacks, k) && n <= |stacks[k - 1]|
    ensures MoveBlock(stacks, n, k, k) == Some(stacks)
  {
    var f := stacks[k - 1];
    assert f[..|f| - n] + f[|f| - n..] == f;
    assert stacks[k - 1 := f[..|f| - n]][k - 1 := f] == stacks;
  }

  /** Once a move fails, every longer run of moves fails. */
  lemma {:induction false} CratesStop(stacks: Stacks, i: nat, n: nat, from: nat, to: nat)
    requires i <= n && MoveCrates(stacks, i, from, to).None?
    ensures MoveCrates(stacks, n, from, to).None?
    decreases n - i
  {
    if i < n {
      CratesStop(stacks, i + 1, n, from, to);
    }
  }

  /** Part one's instruction succeeds exactly when it moves nothing, or
      both stack numbers name stacks and `from` holds enough crates: `n` of
      them between different stacks, one onto itself. */
  lemma MoveCratesSucceeds(stacks: Stacks, n: nat, from: nat, to: nat)
    ensures MoveCrates(stacks, n, from, to).Some? <==>
      n == 0 ||
      (ValidStack(stacks, from) && ValidStack(stacks, to) &&
       if from == to then |stacks[from - 1]| > 0 else n <= |stacks[from - 1]|)
  {
    if n > 0 {
      if !ValidStack(stacks, from) || !ValidStack(stacks, to) {
        assert MoveCrates(stacks, 1, from, to).None?;
        CratesStop(stacks, 1, n, from, to);
      } else if from == to {
        if |stacks[from - 1]| > 0 {
          CratesOntoSelf(stacks, n, from);
        } else {
          assert MoveCrates(stacks, 1, from, to).None?;
          CratesStop(stacks, 1, n, from, to);
        }
      } else if n <= |stacks[from - 1]| {
        CrateByCrate(stacks, n, from, to);
      } else {
        var m := |stacks[from - 1]|;
        CrateByCrate(stacks, m, from, to);
        assert MoveCrates(stacks, m + 1, from, to).None?;
        CratesStop(stacks, m + 1, n, from, to);
      }
    }
  }

  /** Part two's instruction succeeds exactly when both stack numbers name
      stacks and `from` holds at least `n` crates; unlike part one, this
      is checked even when `n` is 0. */
  lemma MoveBlockSucceeds(stacks: Stacks, n: nat, from: nat, to: nat)
    ensures MoveBlock(stacks, n, from, to).Some? <==>
      ValidStack(stacks, from) && ValidStack(stacks, to) && n <= |stacks[from - 1]|
  {
  }

  /** Moving a single crate is the same in both parts. */
  lemma SingleMoveAgrees(stacks: Stacks, from: nat, to: nat)
    ensures MoveCrates(stacks, 1, from, to) == MoveBlock(stacks, 1, from, to)
  {
    if ValidStack(stacks, from) && |stacks[from - 1]| > 0 {
      var f := stacks[from - 1];
      assert f[|f| - 1..] == [f[|f| - 1]];
    }
  }

  // ---------------------------------------------------------------
  // Crates are neither made nor lost

  /** The number of crates on the stacks. */
  function Total(stacks: Stacks): nat
    decreases |stacks|
  {
    if |stacks| == 0 then 0 else |stacks[0]| + Total(stacks[1..])
  }

  /** Replacing one stack changes the total by the difference in height. */
  lemma {:induction false} TotalUpdate(stacks: Stacks, i: nat, s: seq<char>)
    requires i < |stacks|
    ensures Total(stacks[i := s]) + |stacks[i]| == Total(stacks) + |s|
    decreases |stacks|
  {
    if i > 0 {
      assert stacks[i := s][1..] == stacks[1..][i - 1 := s];
      TotalUpdate(stacks[1..], i - 1, s);
    } else {
      assert stacks[i := s][1..] == stacks[1..];
    }
  }

  /** A single move keeps the number of crates. */
  lemma MoveOneKeepsTotal(stacks: Stacks, from: nat, to: nat)
    requires MoveOne(stacks, from, to).Some?
    ensures Total(MoveOne(stacks, from, to).value) == Total(stacks)
    ensures |MoveOne(stacks, from, to).value| == |stacks|
  {
    var f := stacks[from - 1];
    var popped := stacks[from - 1 := f[..|f| - 1]];
    TotalUpdate(stacks, from - 1, f[..|f| - 1]);
    TotalUpdate(popped, to - 1, popped[to - 1] + [f[|f| - 1]]);
  }

  /** Part one's instruction keeps the number of stacks and of crates. */
  lemma {:induction false} MoveCratesKeepsTotal(stacks: Stacks, n: nat, from: nat, to: nat)
    requires MoveCrates(stacks, n, from, to).Some?
    ensures Total(MoveCrates(stacks, n, from, to).value) == Total(stacks)
    ensures |MoveCrates(stacks, n, from, to).value| == |stacks|
    decreases n
  {
    if n > 0 {
      MoveCratesKeepsTotal(stacks, n - 1, from, to);
      MoveOneKeepsTotal(MoveCrates(stacks, n - 1, from, to).value, from, to);
    }
  }

  /** Part two's instruction keeps the number of stacks and of crates. */
  lemma MoveBlockKeepsTotal(stacks: Stacks, n: nat, from: nat, to: nat)
    requires MoveBlock(stacks, n, from, to).Some?
    ensures Total(MoveBlock(stacks, n, from, to).value) == Total(stacks)
    ensures |MoveBlock(stacks, n, from, to).value| == |stacks|
  {
    var f := stacks[from - 1];
    var drained := stacks[from - 1 := f[..|f| - n]];
    TotalUpdate(stacks, from - 1, f[..|f| - n]);
    TotalUpdate(drained, to - 1, drained[to - 1] + f[|f| - n..]);
  }

  // ---------------------------------------------------------------
  // The whole procedure

  /** One instruction, as part one (`crateByCrate`) or part two moves. */
  function Step(stacks: Stacks, ins: (nat, nat, nat), crateByCrate: bool): Option<Stacks>
  {
    if crateByCrate then MoveCrates(stacks, ins.0, ins.1, ins.2)
    else MoveBlock(stacks, ins.0, ins.1, ins.2)
  }

  /** The instructions carried out in order; `None` once one fails. */
  function Run(stacks: Stacks, instrs: seq<(nat, nat, nat)>, crateByCrate: bool): Option<Stacks>
    decreases |instrs|
  {
    if |instrs| == 0 then Some(stacks)
    else
      match Run(stacks, instrs[..|instrs| - 1], crateByCrate)
      case None => None
      case Some(s) => Step(s, instrs[|instrs| - 1], crateByCrate)
  }

  /** The procedure keeps the number of stacks and of crates. */
  lemma {:induction false} RunKeepsTotal(stacks: Stacks, instrs: seq<(nat, nat, nat)>, crateByCrate: bool)
    requires Run(stacks, instrs, crateByCrate).Some?
    ensures Total(Run(stacks, instrs, crateByCrate).value) == Total(stacks)
    ensures |Run(stacks, instrs, crateByCrate).value| == |stacks|
    decreases |instrs|
  {
    if |instrs| > 0 {
      var init := instrs[..|instrs| - 1];
      var ins := instrs[|instrs| - 1];
      RunKeepsTotal(stacks, init, crateByCrate);
      var s := Run(stacks, init, crateByCrate).value;
      if crateByCrate {
        MoveCratesKeepsTotal(s, ins.0, ins.1, ins.2);
      } else {
        MoveBlockKeepsTotal(s, ins.0, ins.1, ins.2);
      }
    }
  }

  /** A procedure that moves one crate at a time has the same outcome in
      both parts. */
  lemma {:induction false} SingleMovesAgree(stacks: Stacks, instrs: seq<(nat, nat, nat)>)
    requires forall k :: 0 <= k < |instrs| ==> instrs[k].0 == 1
    ensures Run(stacks, instrs, true) == Run(stacks, instrs, false)
    decreases |instrs|
  {
    if |instrs| > 0 {
      var init := instrs[..|instrs| - 1];
      var ins := instrs[|instrs| - 1];
      SingleMovesAgree(stacks, init);
      if Run(stacks, init, true).Some? {
        SingleMoveAgrees(Run(stacks, init, true).value, ins.1, ins.2);
      }
    }
  }

  /** Once an instruction fails, the procedure does. */
  lemma {:induction false} RunStop(stacks: Stacks, instrs: seq<(nat, nat, nat)>, i: nat, crateByCrate: bool)
    requires i <= |instrs| && Run(stacks, instrs[..i], crateByCrate).None?
    ensures Run(stacks, instrs, crateByCrate).None?
    decreases |instrs| - i
  {
    if i < |instrs| {
      assert instrs[..i + 1][..i] == instrs[..i];
      RunStop(stacks, instrs, i + 1, crateByCrate);
    } else {
      assert instrs[..i] == instrs;
    }
  }

  // ---------------------------------------------------------------
  // The answer

  /** What a stack shows on top: its last crate, or nothing when empty. */
  function Top(s: seq<char>): seq<char>
  {
    if |s| == 0 then [] else [s[|s| - 1]]
  }

  /** The top crate of every non-empty stack, in stack order. */
  function Tops(stacks: Stacks): (r: string)
    ensures |r| <= |stacks|
    decreases |stacks|
  {
    if |stacks| == 0 then [] else Tops(stacks[..|stacks| - 1]) + Top(stacks[|stacks| - 1])
  }

  /** When no stack is empty, the answer has one letter per stack: the
      top crate of that stack. */
  lemma {:induction false} TopsOfFull(stacks: Stacks)
    requires forall i :: 0 <= i < |stacks| ==> |stacks[i]| > 0
    ensures |Tops(stacks)| == |stacks|
    ensures forall i :: 0 <= i < |stacks| ==> Tops(stacks)[i] == stacks[i][|stacks[i]| - 1]
    decreases |stacks|
  {
    if |stacks| > 0 {
      TopsOfFull(stacks[..|stacks| - 1]);
    }
  }

  /** Empty stacks add nothing to the answer. */
  lemma {:induction false} TopsSkipEmpty(a: Stacks, b: Stacks)
    ensures Tops(a + [[]] + b) == Tops(a + b)
    decreases |b|
  {
    if |b| == 0 {
      assert a + [[]] + b == a + [[]] && (a + [[]])[..|a|] == a;
      assert a + b == a;
    } else {
      var b' := b[..|b| - 1];
      TopsSkipEmpty(a, b');
      assert (a + [[]] + b)[..|a + [[]] + b| - 1] == a + [[]] + b';
      assert (a + b)[..|a + b| - 1] == a + b';
    }
  }

  /** `part_one` (`crateByCrate`) and `part_two`: the drawing before the
      first blank line read into stacks, the procedure after it carried
      out, and the tops of the stacks collected; `None` where the source
      panics. */
  function Solve(input: string, crateByCrate: bool): Option<string>
  {
    match SplitOnce(input, "\n\n")
    case None => None
    case Some((drawing, procedure)) =>
      match Build(StackRows(drawing))
      case None => None
      case Some(stacks) =>
        match ParseInstructions(procedure)
        case None => None
        case Some(instrs) =>
          match Run(stacks, instrs, crateByCrate)
          case None => None
          case Some(final) => Some(Tops(final))
  }

  // ---------------------------------------------------------------
  // The crane at work on the stacks in place

  /** Part one's loop: `n` times, pop the top of `from` and push it on
      `to`. On `false` the source has panicked. */
  method CrateMover9000(stacks: array<seq<char>>, n: nat, from: nat, to: nat) returns (ok: bool)
    modifies stacks
    ensures ok == MoveCrates(old(stacks[..]), n, from, to).Some?
    ensures ok ==> stacks[..] == MoveCrates(old(stacks[..]), n, from, to).value
  {
    ghost var start := stacks[..];
    for i := 0 to n
      invariant MoveCrates(start, i, from, to) == Some(stacks[..])
    {
      if from == 0 || from > stacks.Length || |stacks[from - 1]| == 0 {
        assert MoveCrates(start, i + 1, from, to).None?;
        CratesStop(start, i + 1, n, from, to);
        return false;
      }
      var f := stacks[from - 1];
      var c := f[|f| - 1];
      stacks[from - 1] := f[..|f| - 1];
      if to == 0 || to > stacks.Length {
        assert MoveCrates(start, i + 1, from, to).None?;
        CratesStop(start, i + 1, n, from, to);
        return false;
      }
      stacks[to - 1] := stacks[to - 1] + [c];
    }
    ok := true;
  }

  /** Part two's loop body: drain the top `n` crates of `from` and append
      them to `to`. On `false` the source has panicked. */
  method CrateMover9001(stacks: array<seq<char>>, n: nat, from: nat, to: nat) returns (ok: bool)
    modifies stacks
    ensures ok == MoveBlock(old(stacks[..]), n, from, to).Some?
    ensures ok ==> stacks[..] == MoveBlock(old(stacks[..]), n, from, to).value
  {
    if from == 0 || from > stacks.Length {
      return false;
    }
    var f := stacks[from - 1];
    if n > |f| {
      return false;
    }
    var block := f[|f| - n..];
    stacks[from - 1] := f[..|f| - n];
    if to == 0 || to > stacks.Length {
      return false;
    }
    stacks[to - 1] := stacks[to - 1] + block;
    ok := true;
  }

  /** The instruction loop of either part. */
  method Rearrange(stacks: array<seq<char>>, instrs: seq<(nat, nat, nat)>, crateByCrate: bool) returns (ok: bool)
    modifies stacks
    ensures ok == Run(old(stacks[..]), instrs, crateByCrate).Some?
    ensures ok ==> stacks[..] == Run(old(stacks[..]), instrs, crateByCrate).value
  {
    ghost var start := stacks[..];
    for i := 0 to |instrs|
      invariant Run(start, instrs[..i], crateByCrate) == Some(stacks[..])
    {
      var ins := instrs[i];
      assert instrs[..i + 1][..i] == instrs[..i];
      var moved;
      if crateByCrate {
        moved := CrateMover9000(stacks, ins.0, ins.1, ins.2);
      } else {
        moved := CrateMover9001(stacks, ins.0, ins.1, ins.2);
      }
      if !moved {
        RunStop(start, instrs, i + 1, crateByCrate);
        return false;
      }
    }
    assert instrs[..|instrs|] == instrs;
    ok := true;
  }

  /** The collection of the answer: every stack popped in order, the popped
      crates kept. */
  method TopCrates(stacks: array<seq<char>>) returns (r: string)
    modifies stacks
    ensures r == Tops(old(stacks[..]))
    ensures forall i :: 0 <= i < stacks.Length ==>
      stacks[i] == if |old(stacks[i])| == 0 then [] else old(stacks[i])[..|old(stacks[i])| - 1]
  {
    ghost var start := stacks[..];
    r := "";
    for i := 0 to stacks.Length
      invariant r == Tops(start[..i])
      invariant forall k :: 0 <= k < i ==>
        stacks[k] == if |start[k]| == 0 then [] else start[k][..|start[k]| - 1]
      invariant forall k :: i <= k < stacks.Length ==> stacks[k] == start[k]
    {
      assert start[..i + 1][..i] == start[..i];
      var s := stacks[i];
      if |s| > 0 {
        r := r + [s[|s| - 1]];
        stacks[i] := s[..|s| - 1];
      }
    }
    assert start[..stacks.Length] == start;
  }

  /** Either part on the puzzle input, the stacks held in an array. */
  method Rearranged(input: string, crateByCrate: bool) returns (r: Option<string>)
    ensures r == Solve(input, crateByCrate)
  {
    var split := SplitOnce(input, "\n\n");
    if split.None? {
      return None;
    }
    var (drawing, procedure) := split.value;
    var parsed := ParseStacks(drawing);
    if parsed.None? {
      return None;
    }
    var instrs := ParseInstructions(procedure);
    if instrs.None? {
      return None;
    }
    var stacks := new seq<char>[|parsed.value|](k requires 0 <= k < |parsed.value| => parsed.value[k]);
    assert stacks[..] == parsed.value;
    var ok := Rearrange(stacks, instrs.value, crateByCrate);
    if !ok {
      return None;
    }
    var tops := TopCrates(stacks);
    r := Some(tops);
  }

  /** `part_one`: crates moved one at a time. */
  method PartOne(input: string) returns (r: Option<string>)
    ensures r == Solve(input, true)
  {
    r := Rearranged(input, true);
  }

  /** `part_two`: crates moved a block at a time. */
  method PartTwo(input: string) returns (r: Option<string>)
    ensures r == Solve(input, false)
  {
    r := Rearranged(input, false);
  }
}

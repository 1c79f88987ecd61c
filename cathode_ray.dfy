/** Day 10 of 2022, "Cathode-Ray Tube": a CPU with one register X runs
    `noop` (one cycle) and `addx n` (two cycles, then X grows by n). The
    register's value during each cycle gives the signal strengths of part
    one and the sprite position that lights the CRT pixels of part two. */
module CathodeRay {
  import opened Wrappers
  import opened Strings

  datatype Instruction = Noop | Addx(n: int)

  /** The two `expect`s of the parser: a line that is not `noop` has no
      space, or its number is not an `i32`. */
  datatype ParseError = MissingSpace | BadNumber

  /** One line of the program: anything starting with "noop" is a `noop`;
      any other line is taken as "word number", whatever the word. */
  function ParseInstruction(line: string): Result<Instruction, ParseError>
  {
    if StartsWith(line, "noop") then Ok(Noop)
    else
      match SplitOnce(line, " ")
      case None => Err(MissingSpace)
      case Some((_, num)) =>
        match ParseI32(num)
        case None => Err(BadNumber)
        case Some(n) => Ok(Addx(n))
  }

  /** Every line read as an instruction; the first bad line is the error
      (where the source panics). */
  function ReadAll(lines: seq<string>): (r: Result<seq<Instruction>, ParseError>)
    ensures r.Ok? <==> forall k :: 0 <= k < |lines| ==> ParseInstruction(lines[k]).Ok?
    ensures r.Ok? ==> |r.value| == |lines|
    ensures r.Ok? ==> forall k :: 0 <= k < |lines| ==> r.value[k] == ParseInstruction(lines[k]).value
    ensures r.Err? ==> exists k :: 0 <= k < |lines| && ParseInstruction(lines[k]) == Err(r.error)
    decreases |lines|
  {
    if |lines| == 0 then Ok([])
    else
      match ParseInstruction(lines[0])
      case Err(e) => Err(e)
      case Ok(ins) =>
        match ReadAll(lines[1..])
        case Err(e) => Err(e)
        case Ok(rest) => Ok([ins] + rest)
  }

  /** `input.trim().lines().map(..)`. */
  function ReadProgram(input: string): Result<seq<Instruction>, ParseError>
  {
    ReadAll(Lines(Trim(input)))
  }

  // ---------------------------------------------------------------
  // Register values

  /** The cycles an instruction takes. */
  function Cost(ins: Instruction): nat
  {
    match ins
    case Noop => 1
    case Addx(_) => 2
  }

  /** The cycles a program takes. */
  function Cycles(prog: seq<Instruction>): nat
  {
    if |prog| == 0 then 0 else Cycles(prog[..|prog| - 1]) + Cost(prog[|prog| - 1])
  }

  /** What an instruction adds to X. */
  function Delta(ins: Instruction): int
  {
    match ins
    case Noop => 0
    case Addx(n) => n
  }

  /** The total that the program's `addx` instructions add to X. */
  function Total(prog: seq<Instruction>): int
  {
    if |prog| == 0 then 0 else Total(prog[..|prog| - 1]) + Delta(prog[|prog| - 1])
  }

  function Noops(prog: seq<Instruction>): nat
  {
    if |prog| == 0 then 0 else Noops(prog[..|prog| - 1]) + (if prog[|prog| - 1].Noop? then 1 else 0)
  }

  function Addxs(prog: seq<Instruction>): nat
  {
    if |prog| == 0 then 0 else Addxs(prog[..|prog| - 1]) + (if prog[|prog| - 1].Addx? then 1 else 0)
  }

  /** The values pushed for one instruction when X is `x`: the current value
      for each cycle it takes, then for `addx` the new value. */
  function Pushed(x: int, ins: Instruction): seq<int>
  {
    match ins
    case Noop => [x]
    case Addx(n) => [x, x + n]
  }

  /** The values pushed for each instruction in turn, starting from X =
      `x`. */
  function Run(x: int, prog: seq<Instruction>): (vs: seq<int>)
    ensures |vs| == Cycles(prog)
  {
    if |prog| == 0 then []
    else
      var init := prog[..|prog| - 1];
      Run(x, init) + Pushed(x + Total(init), prog[|prog| - 1])
  }

  /** `register_values`: 1, then the values pushed by each instruction in
      turn. The value at index `t` is X during cycle `t + 1`, and the last
      value is X once the program has finished. */
  function Values(prog: seq<Instruction>): (vs: seq<int>)
    ensures |vs| == 1 + Cycles(prog)
    ensures vs[|vs| - 1] == 1 + Total(prog)
  {
    [1] + Run(1, prog)
  }

  /** `get_register_values`: the loop that pushes onto the vector. */
  method RegisterValues(prog: seq<Instruction>) returns (values: seq<int>)
    ensures values == Values(prog)
  {
    values := [1];
    var i := 0;
    while i < |prog|
      invariant 0 <= i <= |prog|
      invariant values == Values(prog[..i])
    {
      assert prog[..i + 1][..i] == prog[..i];
      var reg := values[|values| - 1];
      values := values + [reg];
      match prog[i] {
        case Noop =>
        case Addx(n) =>
          values := values + [reg + n];
      }
      i := i + 1;
    }
    assert prog[..i] == prog;
  }

  /** `get_register_values(input)`, or the parse error where it panics. */
  method GetRegisterValues(input: string) returns (r: Result<seq<int>, ParseError>)
    ensures ReadProgram(input).Err? ==> r == Err(ReadProgram(input).error)
    ensures ReadProgram(input).Ok? ==> r == Ok(Values(ReadProgram(input).value))
  {
    var prog := ReadProgram(input);
    match prog {
      case Err(e) =>
        r := Err(e);
      case Ok(p) =>
        var values := RegisterValues(p);
        r := Ok(values);
    }
  }

  // ---------------------------------------------------------------
  // Properties of the register values

  /** One value for each `noop`, two for each `addx`, after the initial 1. */
  lemma {:induction false} ValuesLength(prog: seq<Instruction>)
    ensures |Values(prog)| == 1 + Noops(prog) + 2 * Addxs(prog)
  {
    if |prog| > 0 {
      ValuesLength(prog[..|prog| - 1]);
    }
  }

  /** Each instruction finishes within the cycles of the program up to it. */
  lemma {:induction false} CyclesGrow(prog: seq<Instruction>, k: nat)
    requires k <= |prog|
    ensures Cycles(prog[..k]) <= Cycles(prog)
    decreases |prog|
  {
    if k < |prog| {
      var p := prog[..|prog| - 1];
      assert p[..k] == prog[..k];
      CyclesGrow(p, k);
    } else {
      assert prog[..k] == prog;
    }
  }

  /** X during cycle `t + 1` is 1 plus what the instructions that finished
      in the first `t` cycles added: when the first `k` instructions take at
      most `t` cycles and the first `k + 1` take more, the value at index `t`
      is `1 + Total(prog[..k])`. */
  lemma {:induction false} ValueDuringCycle(prog: seq<Instruction>, k: nat, t: nat)
    requires k <= |prog| && Cycles(prog[..k]) <= t
    requires if k < |prog| then t < Cycles(prog[..k + 1]) else t == Cycles(prog)
    ensures t < |Values(prog)| && Values(prog)[t] == 1 + Total(prog[..k])
    decreases |prog|
  {
    if k < |prog| {
      CyclesGrow(prog, k + 1);
    } else {
      assert prog[..k] == prog;
    }
    if |prog| > 0 && k < |prog| {
      var p := prog[..|prog| - 1];
      assert Values(prog) == Values(p) + Pushed(1 + Total(p), prog[|prog| - 1]);
      if k < |p| {
        assert p[..k] == prog[..k] && p[..k + 1] == prog[..k + 1];
        ValueDuringCycle(p, k, t);
      } else {
        assert p == prog[..k] && p[..k] == p;
        assert prog[..k + 1] == prog;
        if t == Cycles(p) {
          ValueDuringCycle(p, k, t);
        } else {
          assert t == Cycles(p) + 1;
        }
      }
    }
  }

  // ---------------------------------------------------------------
  // Part one: signal strengths

  /** `(first..=last).step_by(step)`. */
  function StepRange(first: nat, last: nat, step: nat): (r: seq<nat>)
    requires step > 0
    ensures |r| > 0 ==> r[0] == first
    ensures forall i :: 0 <= i < |r| - 1 ==> r[i + 1] == r[i] + step
    ensures forall i :: 0 <= i < |r| ==> r[i] <= last
    ensures (if |r| == 0 then first else r[|r| - 1] + step) > last
    decreases last + 1 - first
  {
    if first > last then []
    else
      [first] + StepRange(first + step, last, step)
  }

  /** The cycles whose signal strength counts: 20, 60, ..., 220. */
  function Checkpoints(): seq<nat> { StepRange(20, 220, 40) }

  /** The fold `a + e * register_values[e - 1]` over the given cycles. */
  function Strength(values: seq<int>, cs: seq<nat>): int
    requires forall i :: 0 <= i < |cs| ==> 1 <= cs[i] <= |values|
    decreases |cs|
  {
    if |cs| == 0 then 0
    else Strength(values, cs[..|cs| - 1]) + cs[|cs| - 1] * values[cs[|cs| - 1] - 1]
  }

  /** The checkpoints are exactly 20, 60, 100, 140, 180 and 220. */
  lemma CheckpointsAre()
    ensures Checkpoints() == [20, 60, 100, 140, 180, 220]
  {
  }

  /** `part_one`: `None` where the source panics, on a bad line or a program
      too short for cycle 220. */
  function PartOne(input: string): (r: Option<int>)
    ensures r.Some? ==> ReadProgram(input).Ok? && Cycles(ReadProgram(input).value) >= 219
  {
    match ReadProgram(input)
    case Err(_) => None
    case Ok(prog) =>
      var values := Values(prog);
      if |values| < 220 then None
      else
        CheckpointsAre();
        Some(Strength(values, Checkpoints()))
  }

  /** Part one's sum is the checkpoint cycles weighted by X during them. */
  lemma StrengthSum(values: seq<int>)
    requires |values| >= 220
    ensures (CheckpointsAre(); Strength(values, Checkpoints())) ==
      20 * values[19] + 60 * values[59] + 100 * values[99] +
      140 * values[139] + 180 * values[179] + 220 * values[219]
  {
    CheckpointsAre();
    StrengthAtSix(values);
  }

  lemma StrengthAtSix(values: seq<int>)
    requires |values| >= 220
    ensures Strength(values, [20, 60, 100, 140, 180, 220]) ==
      20 * values[19] + 60 * values[59] + 100 * values[99] +
      140 * values[139] + 180 * values[179] + 220 * values[219]
  {
    var cs: seq<nat> := [20, 60, 100, 140, 180, 220];
    assert Strength(values, cs[..1]) == 20 * values[19] by {
      assert cs[..1][..0] == [];
    }
    assert Strength(values, cs[..2]) == Strength(values, cs[..1]) + 60 * values[59] by {
      assert cs[..2][..1] == cs[..1];
    }
    assert Strength(values, cs[..3]) == Strength(values, cs[..2]) + 100 * values[99] by {
      assert cs[..3][..2] == cs[..2];
    }
    assert Strength(values, cs[..4]) == Strength(values, cs[..3]) + 140 * values[139] by {
      assert cs[..4][..3] == cs[..3];
    }
    assert Strength(values, cs[..5]) == Strength(values, cs[..4]) + 180 * values[179] by {
      assert cs[..5][..4] == cs[..4];
    }
    assert cs[..6] == cs;
  }

  // ---------------------------------------------------------------
  // Part two: the CRT

  /** The sprite, three pixels wide and centred on X, covers the column. */
  predicate Covers(x: int, column: int) { -1 <= x - column <= 1 }

  /** The first `n` pixels: pixel `i` is drawn in column `i % 40` during
      cycle `i + 1`, lit when the sprite covers it. */
  function Pixels(values: seq<int>, n: nat): (r: string)
    requires n <= |values|
    ensures |r| == n
    ensures forall i :: 0 <= i < n ==> (r[i] == '#' <==> Covers(values[i], i % 40))
    ensures forall i :: 0 <= i < n ==> r[i] == '#' || r[i] == '.'
  {
    if n == 0 then ""
    else Pixels(values, n - 1) + [if Covers(values[n - 1], (n - 1) % 40) then '#' else '.']
  }

  /** `part_two`: the 240 pixels, or `None` where the source panics. */
  function PartTwo(input: string): (r: Option<string>)
    ensures r.Some? ==> |r.value| == 240
  {
    match ReadProgram(input)
    case Err(_) => None
    case Ok(prog) =>
      var values := Values(prog);
      if |values| < 240 then None else Some(Pixels(values, 240))
  }

  /** The pixel in row `row` and column `col` is lit exactly when the sprite
      that the finished instructions have moved covers that column. */
  lemma PixelOfProgram(prog: seq<Instruction>, row: nat, col: nat, k: nat)
    requires row < 6 && col < 40 && k <= |prog|
    requires 240 <= |Values(prog)|
    requires Cycles(prog[..k]) <= 40 * row + col
    requires if k < |prog| then 40 * row + col < Cycles(prog[..k + 1]) else 40 * row + col == Cycles(prog)
    ensures Pixels(Values(prog), 240)[40 * row + col] == '#' <==> Covers(1 + Total(prog[..k]), col)
  {
    var i := 40 * row + col;
    ValueDuringCycle(prog, k, i);
    assert i % 40 == col;
    var values := Values(prog);
    assert Pixels(values, 240)[i] == '#' <==> Covers(values[i], i % 40);
  }

  /** A row in which X stays put lights at most the three columns under the
      sprite. */
  lemma SteadyRow(values: seq<int>, row: nat, x: int, col: nat)
    requires row < 6 && col < 40 && 240 <= |values|
    requires forall i :: 40 * row <= i < 40 * row + 40 ==> values[i] == x
    ensures Pixels(values, 240)[40 * row + col] == '#' <==> x - 1 <= col <= x + 1
  {
    assert values[40 * row + col] == x;
    assert (40 * row + col) % 40 == col;
  }

  // ---------------------------------------------------------------
  // Reading back what is written

  function Show(ins: Instruction): string
  {
    match ins
    case Noop => "noop"
    case Addx(n) => "addx " + IntText(n)
  }

  /** Every instruction with an `i32` operand, written out, reads back as
      itself. */
  lemma ParseShow(ins: Instruction)
    requires ins.Addx? ==> I32Min <= ins.n < I32Limit
    ensures ParseInstruction(Show(ins)) == Ok(ins)
  {
    if ins.Addx? {
      var line, text := Show(ins), IntText(ins.n);
      assert !StartsWith(line, "noop") by {
        assert line[0] == 'a';
      }
      assert SplitOnce(line, " ") == Some(("addx", text)) by {
        assert line == "addx" + " " + text;
        SplitOnceAt("addx", " ", text);
      }
      assert ParseI32(text) == Some(ins.n) by {
        ParseIntText(ins.n);
      }
    }
  }

  /** A line that starts with "noop" is a `noop` whatever follows. */
  lemma NoopPrefix(rest: string)
    ensures ParseInstruction("noop" + rest) == Ok(Noop)
  {
    assert ("noop" + rest)[..4] == "noop";
  }

  /** A line that is not a `noop` and has no space is an error. */
  lemma MissingSpaceError(line: string)
    requires !StartsWith(line, "noop") && ' ' !in line
    ensures ParseInstruction(line) == Err(MissingSpace)
  {
    SplitOnceNone(line, " ");
  }

  // ---------------------------------------------------------------
  // Programs in pieces

  lemma {:induction false} TotalAppend(a: seq<Instruction>, b: seq<Instruction>)
    ensures Total(a + b) == Total(a) + Total(b)
    decreases |b|
  {
    if |b| == 0 {
      assert a + b == a;
    } else {
      var init := b[..|b| - 1];
      assert (a + b)[..|a + b| - 1] == a + init;
      TotalAppend(a, init);
    }
  }

  /** Running two programs one after the other pushes the first's values,
      then the second's starting from where the first left X. */
  lemma {:induction false} RunAppend(x: int, a: seq<Instruction>, b: seq<Instruction>)
    ensures Run(x, a + b) == Run(x, a) + Run(x + Total(a), b)
    decreases |b|
  {
    if |b| == 0 {
      assert a + b == a;
    } else {
      var init := b[..|b| - 1];
      assert (a + b)[..|a + b| - 1] == a + init;
      RunAppend(x, a, init);
      TotalAppend(a, init);
    }
  }

  /** The register threaded through the program from the front: each
      instruction pushes its values and hands the new X to the rest. */
  function RunFrom(x: int, prog: seq<Instruction>): seq<int>
    decreases |prog|
  {
    if |prog| == 0 then [] else Pushed(x, prog[0]) + RunFrom(x + Delta(prog[0]), prog[1..])
  }

  lemma RunSingle(x: int, ins: Instruction)
    ensures Run(x, [ins]) == Pushed(x, ins) && Total([ins]) == Delta(ins)
  {
    assert [ins][..0] == [];
  }

  /** Pushing values as the loop does, last instruction last, is threading
      X through the program from the front. */
  lemma {:induction false} RunFromIsRun(x: int, prog: seq<Instruction>)
    ensures RunFrom(x, prog) == Run(x, prog)
    decreases |prog|
  {
    if |prog| > 0 {
      var first, rest := prog[0], prog[1..];
      calc {
        RunFrom(x, prog);
        Pushed(x, first) + RunFrom(x + Delta(first), rest);
        { RunFromIsRun(x + Delta(first), rest); }
        Pushed(x, first) + Run(x + Delta(first), rest);
        { RunSingle(x, first); }
        Run(x, [first]) + Run(x + Total([first]), rest);
        { RunAppend(x, [first], rest); }
        Run(x, [first] + rest);
        { assert [first] + rest == prog; }
        Run(x, prog);
      }
    }
  }

  // ---------------------------------------------------------------
  // Written programs

  function ShowAll(prog: seq<Instruction>): (r: seq<string>)
    ensures |r| == |prog| && forall k :: 0 <= k < |prog| ==> r[k] == Show(prog[k])
  {
    seq(|prog|, k requires 0 <= k < |prog| => Show(prog[k]))
  }

  /** A written instruction is one non-empty line that neither starts nor
      ends with whitespace. */
  lemma ShowLine(ins: Instruction)
    ensures var line := Show(ins); |line| > 0 && '\n' !in line
    ensures var line := Show(ins); !IsSpace(line[0]) && !IsSpace(line[|line| - 1])
  {
    if ins.Addx? {
      var num := NatToString(if ins.n < 0 then -ins.n else ins.n);
      var line := Show(ins);
      assert line == (if ins.n < 0 then "addx -" else "addx ") + num;
      assert '\n' !in num by {
        assert forall c :: c in num ==> IsDigit(c);
      }
      assert line[|line| - 1] == num[|num| - 1];
    }
  }

  /** A program written one instruction a line reads back as itself. */
  lemma ReadWritten(prog: seq<Instruction>)
    requires |prog| > 0
    requires forall k :: 0 <= k < |prog| ==> (prog[k].Addx? ==> I32Min <= prog[k].n < I32Limit)
    ensures ReadProgram(Join(ShowAll(prog), "\n")) == Ok(prog)
  {
    WrittenLines(ShowAll(prog), prog);
    forall k | 0 <= k < |prog| ensures ParseInstruction(ShowAll(prog)[k]) == Ok(prog[k]) {
      ParseShow(prog[k]);
    }
    ReadAllParsed(ShowAll(prog), prog);
  }

  /** The written lines survive the trim and are split back apart. */
  lemma WrittenLines(ls: seq<string>, prog: seq<Instruction>)
    requires |prog| > 0 && ls == ShowAll(prog)
    ensures Lines(Trim(Join(ls, "\n"))) == ls
  {
    forall k | 0 <= k < |ls|
      ensures |ls[k]| > 0 && '\n' !in ls[k] && !IsSpace(ls[k][0]) && !IsSpace(ls[k][|ls[k]| - 1])
    {
      ShowLine(prog[k]);
    }
    var text := Join(ls, "\n");
    JoinEnds(ls, "\n");
    TrimIdentity(text);
    LinesOfJoin(ls);
  }

  lemma ReadAllParsed(lines: seq<string>, prog: seq<Instruction>)
    requires |lines| == |prog|
    requires forall k :: 0 <= k < |lines| ==> ParseInstruction(lines[k]) == Ok(prog[k])
    ensures ReadAll(lines) == Ok(prog)
  {
    var r := ReadAll(lines);
    assert forall k :: 0 <= k < |lines| ==> ParseInstruction(lines[k]).Ok?;
    assert r.value == prog;
  }
}

/** The parser of day 5 of 2022, "Supply Stacks": the drawing of the crate
    stacks, read row by row into columns listed bottom to top, and the
    rearrangement procedure, one "move n from a to b" per line. */
module StackParse {
  import opened Wrappers
  import opened Strings

  /** A digit of the label row stands for no crate. */
  function Label(c: char): char
  {
    if IsDigit(c) then ' ' else c
  }

  /** `parse_stack_line`: the characters at positions 1, 5, 9, ... of the
      line, where the drawing puts a crate's letter or a stack's number,
      digits turned into spaces. */
  function ParseStackLine(line: string): (r: seq<char>)
    ensures 4 * |r| <= |line| + 2 < 4 * |r| + 4
    ensures forall k :: 0 <= k < |r| ==> 4 * k + 1 < |line| && r[k] == Label(line[4 * k + 1])
    decreases |line|
  {
    if |line| < 2 then []
    else
      var rest := if |line| >= 4 then line[4..] else "";
      var tail := ParseStackLine(rest);
      assert forall k :: 0 <= k < |tail| ==> rest[4 * k + 1] == line[4 * (k + 1) + 1];
      [Label(line[1])] + tail
  }

  /** Every line of the drawing read as a row. */
  function Rows(lines: seq<string>): (rows: seq<seq<char>>)
    ensures |rows| == |lines| && forall k :: 0 <= k < |lines| ==> rows[k] == ParseStackLine(lines[k])
  {
    seq(|lines|, k requires 0 <= k < |lines| => ParseStackLine(lines[k]))
  }

  // ---------------------------------------------------------------
  // From rows to columns

  /** The crates of one row pushed onto the columns, the crate at position
      `i` onto column `i`; `None` where a crate has no column and the index
      panics. */
  function PushRow(cols: seq<seq<char>>, row: seq<char>): (r: Option<seq<seq<char>>>)
    ensures r.Some? ==> |r.value| == |cols|
    decreases |row|
  {
    if |row| == 0 then Some(cols)
    else
      match PushRow(cols, row[..|row| - 1])
      case None => None
      case Some(cs) =>
        var i, c := |row| - 1, row[|row| - 1];
        if c == ' ' then Some(cs)
        else if i < |cs| then Some(cs[i := cs[i] + [c]])
        else None
  }

  /** What one row adds to column `i`. */
  function Crate(row: seq<char>, i: nat): seq<char>
  {
    if i < |row| && row[i] != ' ' then [row[i]] else []
  }

  /** Pushing a row succeeds exactly when every crate in it has a column,
      and then each column gains that row's crate at its position, if
      any. */
  lemma {:induction false} PushRowMeaning(cols: seq<seq<char>>, row: seq<char>)
    ensures PushRow(cols, row).Some? <==> forall i :: 0 <= i < |row| && row[i] != ' ' ==> i < |cols|
    ensures PushRow(cols, row).Some? ==>
      forall i :: 0 <= i < |cols| ==> PushRow(cols, row).value[i] == cols[i] + Crate(row, i)
    decreases |row|
  {
    if |row| > 0 {
      var init := row[..|row| - 1];
      PushRowMeaning(cols, init);
      assert forall i :: 0 <= i < |init| ==> init[i] == row[i];
    }
  }

  /** A popped row: while there are no columns yet, it makes one empty
      column per position, then its crates are pushed. */
  function AddRow(cols: seq<seq<char>>, row: seq<char>): Option<seq<seq<char>>>
  {
    var start := if |cols| == 0 then seq(|row|, _ => []) else cols;
    PushRow(start, row)
  }

  /** `parse_stacks` on the rows: they are popped from the last, the bottom
      of the drawing, to the first; so all rows after the first are added
      before the first. */
  function Build(rows: seq<seq<char>>): Option<seq<seq<char>>>
    decreases |rows|
  {
    if |rows| == 0 then Some([])
    else
      match Build(rows[1..])
      case None => None
      case Some(cols) => AddRow(cols, rows[0])
  }

  /** The number of columns: the length of the lowest row that has any. */
  function Width(rows: seq<seq<char>>): nat
    decreases |rows|
  {
    if |rows| == 0 then 0
    else if Width(rows[1..]) == 0 then |rows[0]|
    else Width(rows[1..])
  }

  /** Column `i` read from the bottom row up: the crates at position `i`. */
  function Column(rows: seq<seq<char>>, i: nat): seq<char>
    decreases |rows|
  {
    if |rows| == 0 then [] else Column(rows[1..], i) + Crate(rows[0], i)
  }

  /** The drawing is read into `Width` columns, column `i` holding the
      crates at position `i` from the bottom row up; it fails exactly when
      some crate lies beyond the columns made so far. */
  lemma {:induction false} BuildMeaning(rows: seq<seq<char>>)
    ensures Build(rows).Some? <==>
      forall k, i :: 0 <= k < |rows| && 0 <= i < |rows[k]| && rows[k][i] != ' ' ==> i < Width(rows[k..])
    ensures Build(rows).Some? ==> |Build(rows).value| == Width(rows)
    ensures Build(rows).Some? ==> forall i :: 0 <= i < Width(rows) ==> Build(rows).value[i] == Column(rows, i)
    decreases |rows|
  {
    if |rows| > 0 {
      var rest := rows[1..];
      BuildMeaning(rest);
      assert forall k :: 1 <= k <= |rows| ==> rows[k..] == rest[k - 1..];
      if Build(rest).Some? {
        var cols := Build(rest).value;
        var start := if |cols| == 0 then seq(|rows[0]|, _ => []) else cols;
        PushRowMeaning(start, rows[0]);
        if |cols| == 0 {
          forall i | 0 <= i < Width(rows) ensures Column(rest, i) == [] {
            ColumnBeyond(rest, i);
          }
        }
      }
    }
  }

  /** Rows that make no columns hold no crates beyond them. */
  lemma {:induction false} ColumnBeyond(rows: seq<seq<char>>, i: nat)
    requires Build(rows).Some? && Width(rows) == 0
    ensures Column(rows, i) == []
    decreases |rows|
  {
    if |rows| > 0 {
      var rest := rows[1..];
      ColumnBeyond(rest, i);
      assert |rows[0]| == 0;
    }
  }

  /** No column holds a space: spaces are where there is no crate. */
  lemma {:induction false} ColumnNoSpace(rows: seq<seq<char>>, i: nat)
    ensures ' ' !in Column(rows, i)
    decreases |rows|
  {
    if |rows| > 0 {
      ColumnNoSpace(rows[1..], i);
    }
  }

  /** The rows of the drawing's text. */
  function StackRows(text: string): seq<seq<char>>
  {
    Rows(Lines(text))
  }

  /** Once a later row fails, the drawing does. */
  lemma {:induction false} BuildStop(rows: seq<seq<char>>, k: nat)
    requires k <= |rows| && Build(rows[k..]).None?
    ensures Build(rows).None?
    decreases k
  {
    if k > 0 {
      assert rows[k - 1..][1..] == rows[k..];
      BuildStop(rows, k - 1);
    }
  }

  /** Popping the row above those already added. */
  lemma BuildStep(rows: seq<seq<char>>, k: nat, cols: seq<seq<char>>)
    requires k < |rows| && Build(rows[k + 1..]) == Some(cols)
    ensures Build(rows[k..]) == AddRow(cols, rows[k])
  {
    assert rows[k..][1..] == rows[k + 1..];
  }

  lemma PushRowStop(cols: seq<seq<char>>, row: seq<char>, i: nat)
    requires i < |row| && row[i] != ' ' && i >= |cols|
    ensures PushRow(cols, row).None?
  {
    PushRowMeaning(cols, row);
  }

  /** One popped row added to the columns: the empty columns made first
      when there are none, then each crate pushed onto its column. */
  method AddRowTo(cols: seq<seq<char>>, row: seq<char>) returns (r: Option<seq<seq<char>>>)
    ensures r == AddRow(cols, row)
  {
    var columns := cols;
    if |columns| == 0 {
      for k := 0 to |row|
        invariant columns == seq(k, _ => [])
      {
        columns := columns + [[]];
      }
    }
    ghost var start := columns;
    for i := 0 to |row|
      invariant PushRow(start, row[..i]) == Some(columns)
    {
      assert row[..i + 1][..i] == row[..i];
      if row[i] != ' ' {
        if i >= |columns| {
          PushRowStop(start, row, i);
          return None;
        }
        columns := columns[i := columns[i] + [row[i]]];
      }
    }
    assert row[..|row|] == row;
    r := Some(columns);
  }

  /** `parse_stacks`: the rows are popped from the bottom of the drawing
      up, the first row with a length makes the columns, and every crate is
      pushed onto its column. */
  method ParseStacks(text: string) returns (r: Option<seq<seq<char>>>)
    ensures r == Build(StackRows(text))
  {
    r := PopRows(StackRows(text));
  }

  /** The loop of `parse_stacks` over the rows read from the text. */
  method PopRows(all: seq<seq<char>>) returns (r: Option<seq<seq<char>>>)
    ensures r == Build(all)
  {
    var rows := all;
    var columns: seq<seq<char>> := [];
    while |rows| > 0
      invariant rows == all[..|rows|]
      invariant Build(all[|rows|..]) == Some(columns)
      decreases |rows|
    {
      var row := rows[|rows| - 1];
      rows := rows[..|rows| - 1];
      BuildStep(all, |rows|, columns);
      var next := AddRowTo(columns, row);
      if next.None? {
        BuildStop(all, |rows|);
        return None;
      }
      columns := next.value;
    }
    assert all[0..] == all;
    r := Some(columns);
  }

  // ---------------------------------------------------------------
  // The rearrangement procedure

  /** `parse_instructions` on one line: the words after "move", "from" and
      "to", that is every second word from the second, read as numbers;
      `None` where a word is missing or is not a `usize`. */
  function ParseInstruction(line: string): (r: Option<(nat, nat, nat)>)
    ensures r.Some? ==> |SplitOn(line, " ")| >= 6
    ensures r.Some? ==> InUSize(r.value)
  {
    var words := SplitOn(line, " ");
    if |words| < 6 then None
    else
      match (ParseUSize(words[1]), ParseUSize(words[3]), ParseUSize(words[5]))
      case (Some(n), Some(from), Some(to)) => Some((n, from, to))
      case _ => None
  }

  /** `parse_instructions`: every line of the trimmed text. */
  function ParseInstructions(text: string): Option<seq<(nat, nat, nat)>>
  {
    ReadEvery(Lines(Trim(text)), ParseInstruction)
  }

  /** The line of one instruction. */
  function InstructionText(ins: (nat, nat, nat)): string
  {
    Join(["move", NatToString(ins.0), "from", NatToString(ins.1), "to", NatToString(ins.2)], " ")
  }

  /** Digits hold no space. */
  lemma NoSpaceInNumber(n: nat)
    ensures ' ' !in NatToString(n)
  {
    var t := NatToString(n);
    assert forall i :: 0 <= i < |t| ==> IsDigit(t[i]);
  }

  /** The numbers of an instruction fit a `usize`. */
  predicate InUSize(ins: (nat, nat, nat))
  {
    ins.0 < USizeLimit && ins.1 < USizeLimit && ins.2 < USizeLimit
  }

  /** Every instruction whose numbers fit a `usize`, written as a line,
      reads back. */
  lemma ParseInstructionText(ins: (nat, nat, nat))
    requires InUSize(ins)
    ensures ParseInstruction(InstructionText(ins)) == Some(ins)
  {
    var words := ["move", NatToString(ins.0), "from", NatToString(ins.1), "to", NatToString(ins.2)];
    NoSpaceInNumber(ins.0);
    NoSpaceInNumber(ins.1);
    NoSpaceInNumber(ins.2);
    assert forall k :: 0 <= k < |words| ==> " "[0] !in words[k];
    SplitOnJoinFree(words, " ");
    ParseNatToString(ins.0);
    ParseNatToString(ins.1);
    ParseNatToString(ins.2);
  }

  /** A written instruction is a line that neither starts nor ends with
      whitespace. */
  lemma InstructionLine(ins: (nat, nat, nat))
    ensures var line := InstructionText(ins);
      |line| > 0 && '\n' !in line && !IsSpace(line[0]) && !IsSpace(line[|line| - 1])
  {
    var words := ["move", NatToString(ins.0), "from", NatToString(ins.1), "to", NatToString(ins.2)];
    var last := NatToString(ins.2);
    forall k | 0 <= k < |words| ensures |words[k]| > 0 && '\n' !in words[k] {
      var t := words[k];
      assert forall i :: 0 <= i < |t| ==> IsDigit(t[i]) || t[i] in "movefromt";
    }
    JoinEnds(words, " ");
    JoinFree(words, " ", '\n');
    assert IsDigit(last[|last| - 1]);
  }

  function InstructionTexts(instrs: seq<(nat, nat, nat)>): (r: seq<string>)
    ensures |r| == |instrs| && forall k :: 0 <= k < |instrs| ==> r[k] == InstructionText(instrs[k])
  {
    seq(|instrs|, k requires 0 <= k < |instrs| => InstructionText(instrs[k]))
  }

  /** The lines of a procedure written one instruction a line, with or
      without a newline after the last, are the instructions' lines. */
  lemma ProcedureLines(instrs: seq<(nat, nat, nat)>)
    requires |instrs| > 0
    ensures var ls := InstructionTexts(instrs);
      Lines(Trim(Join(ls, "\n"))) == ls && Lines(Trim(Join(ls, "\n") + "\n")) == ls
  {
    var ls := InstructionTexts(instrs);
    forall k | 0 <= k < |ls|
      ensures |ls[k]| > 0 && '\n' !in ls[k] && !IsSpace(ls[k][0]) && !IsSpace(ls[k][|ls[k]| - 1])
    {
      InstructionLine(instrs[k]);
    }
    var text := Join(ls, "\n");
    JoinEnds(ls, "\n");
    TrimIdentity(text);
    TrimLine(text);
    LinesOfJoin(ls);
  }

  /** A procedure written one instruction a line reads back, with or
      without a newline after the last. */
  lemma ParseInstructionsText(instrs: seq<(nat, nat, nat)>)
    requires |instrs| > 0 && forall k :: 0 <= k < |instrs| ==> InUSize(instrs[k])
    ensures ParseInstructions(Join(InstructionTexts(instrs), "\n")) == Some(instrs)
    ensures ParseInstructions(Join(InstructionTexts(instrs), "\n") + "\n") == Some(instrs)
  {
    var ls := InstructionTexts(instrs);
    forall k | 0 <= k < |ls|
      ensures ParseInstruction(ls[k]) == Some(instrs[k])
    {
      ParseInstructionText(instrs[k]);
    }
    ProcedureLines(instrs);
    ReadEveryMeaning(ls, ParseInstruction);
    assert ReadEvery(ls, ParseInstruction).value == instrs;
  }
}

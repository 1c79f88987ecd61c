/** Day 4 of 2021, "Giant Squid": bingo. The input is a line of
    comma-separated draws followed by 5x5 boards. Every draw marks the
    cells holding it; a board wins when one of its rows or columns is
    fully marked, and its score is the sum of its unmarked numbers times
    the winning draw. Part one scores the first board to win; part two
    stops marking boards once they have won and scores the last one. */
module GiantSquid {
  import opened Wrappers
  import opened Strings

  // ---------------------------------------------------------------
  // 32-bit casts

  /** `num as i32` for a draw read as `u32`: draws from 2^31 on wrap to
      negative numbers. */
  function AsI32(n: nat): (r: int)
    ensures I32Min <= r < I32Limit
    ensures n < I32Limit ==> r == n
    ensures I32Limit <= n < U32Limit ==> r == n - U32Limit
  {
    var w := n % U32Limit;
    if w < I32Limit then w else w - U32Limit
  }

  /** `e as u32` for a board number read as `i32`: negative numbers wrap
      to 2^32 + e. */
  function AsU32(e: int): (r: nat)
    ensures r < U32Limit
    ensures 0 <= e < U32Limit ==> r == e
    ensures -(U32Limit as int) <= e < 0 ==> r == e + U32Limit
  {
    e % U32Limit
  }

  // ---------------------------------------------------------------
  // The board's cells and lines

  /** The index of row `r`, column `c` among the 25 numbers, which are
      stored row by row. */
  function Cell(r: nat, c: nat): nat { 5 * r + c }

  /** Line `l` of the board: row `l` for `l` below 5, otherwise column
      `l - 5`. */
  function LineOf(l: nat): seq<nat>
  {
    if l < 5 then seq(5, c requires 0 <= c => Cell(l, c)) else seq(5, r requires 0 <= r => Cell(r, l - 5))
  }

  /** The lines `is_winning` checks: the five rows, then the five columns. */
  function WinningLines(): (lines: seq<seq<nat>>)
    ensures |lines| == 10 && forall l :: 0 <= l < 10 ==> lines[l] == LineOf(l)
  {
    seq(10, l requires 0 <= l => LineOf(l))
  }

  /** They are the ten lines the source lists, in its order. */
  lemma WinningLinesListed()
    ensures WinningLines() == [
      [0, 1, 2, 3, 4], [5, 6, 7, 8, 9], [10, 11, 12, 13, 14], [15, 16, 17, 18, 19], [20, 21, 22, 23, 24],
      [0, 5, 10, 15, 20], [1, 6, 11, 16, 21], [2, 7, 12, 17, 22], [3, 8, 13, 18, 23], [4, 9, 14, 19, 24]]
  {
    assert LineOf(0) == [0, 1, 2, 3, 4];
    assert LineOf(1) == [5, 6, 7, 8, 9];
    assert LineOf(2) == [10, 11, 12, 13, 14];
    assert LineOf(3) == [15, 16, 17, 18, 19];
    assert LineOf(4) == [20, 21, 22, 23, 24];
    assert LineOf(5) == [0, 5, 10, 15, 20];
    assert LineOf(6) == [1, 6, 11, 16, 21];
    assert LineOf(7) == [2, 7, 12, 17, 22];
    assert LineOf(8) == [3, 8, 13, 18, 23];
    assert LineOf(9) == [4, 9, 14, 19, 24];
  }

  /** The `rfold` over a line, from its last index to its first: the
      accumulator starts true and stays true while every index met is
      marked. */
  function LineMarked(line: seq<nat>, marked: set<nat>): bool
  {
    if |line| == 0 then true
    else
      var b := LineMarked(line[1..], marked);
      if b == false then false else if line[0] in marked then true else false
  }

  /** The fold is true exactly when every index of the line is marked. */
  lemma {:induction false} LineMarkedMeaning(line: seq<nat>, marked: set<nat>)
    ensures LineMarked(line, marked) <==> forall k :: 0 <= k < |line| ==> line[k] in marked
  {
    if |line| > 0 {
      LineMarkedMeaning(line[1..], marked);
      assert forall k :: 1 <= k < |line| ==> line[k] == line[1..][k - 1];
    }
  }

  /** The search `is_winning` does: some line of `WinningLines` is fully
      marked. */
  predicate LinesWin(marked: set<nat>)
  {
    exists l :: 0 <= l < |WinningLines()| && LineMarked(WinningLines()[l], marked)
  }

  predicate RowDone(marked: set<nat>, r: nat)
  {
    forall c :: 0 <= c < 5 ==> Cell(r, c) in marked
  }

  predicate ColumnDone(marked: set<nat>, c: nat)
  {
    forall r :: 0 <= r < 5 ==> Cell(r, c) in marked
  }

  /** A board wins when one of its five rows or one of its five columns
      is fully marked. */
  predicate Wins(marked: set<nat>)
  {
    (exists r :: 0 <= r < 5 && RowDone(marked, r)) || (exists c :: 0 <= c < 5 && ColumnDone(marked, c))
  }

  /** Line `l` of `WinningLines` is row `l`, or column `l - 5`. */
  lemma WinningLine(l: nat, marked: set<nat>)
    requires l < |WinningLines()|
    ensures LineMarked(WinningLines()[l], marked) <==> if l < 5 then RowDone(marked, l) else ColumnDone(marked, l - 5)
  {
    var line := WinningLines()[l];
    assert line == LineOf(l) && |line| == 5;
    LineMarkedMeaning(line, marked);
    if l < 5 {
      assert forall c :: 0 <= c < 5 ==> line[c] == Cell(l, c);
    } else {
      var c: nat := l - 5;
      forall r | 0 <= r < 5
        ensures line[r] == Cell(r, c)
      {
      }
      if ColumnDone(marked, c) {
        forall k | 0 <= k < 5
          ensures line[k] in marked
        {
          assert Cell(k, c) in marked;
        }
      }
    }
  }

  /** The search over the ten lines finds a fully marked line exactly
      when a row or a column is fully marked. */
  lemma WinsMeaning(marked: set<nat>)
    ensures LinesWin(marked) <==> Wins(marked)
  {
    forall l | 0 <= l < |WinningLines()|
      ensures LineMarked(WinningLines()[l], marked) <==> if l < 5 then RowDone(marked, l) else ColumnDone(marked, l - 5)
    {
      WinningLine(l, marked);
    }
    if exists c :: 0 <= c < 5 && ColumnDone(marked, c) {
      var c :| 0 <= c < 5 && ColumnDone(marked, c);
      assert LineMarked(WinningLines()[c + 5], marked);
    }
  }

  /** A fully marked diagonal does not win. */
  lemma DiagonalsDoNotWin()
    ensures !Wins({0, 6, 12, 18, 24})
    ensures !Wins({4, 8, 12, 16, 20})
  {
    var down: set<nat> := {0, 6, 12, 18, 24};
    var up: set<nat> := {4, 8, 12, 16, 20};
    forall r | 0 <= r < 5
      ensures !RowDone(down, r) && !ColumnDone(down, r) && !RowDone(up, r) && !ColumnDone(up, r)
    {
      var other := if r == 0 then 1 else 0;
      assert Cell(r, other) !in down && Cell(other, r) !in down;
      assert Cell(r, 4 - other) !in up && Cell(4 - other, r) !in up;
    }
  }

  // ---------------------------------------------------------------
  // Marks and unmarked numbers

  /** The indices below `n` whose number is `num`. */
  function MatchesBelow(elements: seq<int>, num: int, n: nat): set<nat>
  {
    set i: nat | i < n && i < |elements| && elements[i] == num
  }

  /** The indices `mark(num)` adds. */
  function Matches(elements: seq<int>, num: int): set<nat>
  {
    MatchesBelow(elements, num, |elements|)
  }

  /** The numbers at unmarked indices below `n`, in index order. */
  function UnmarkedBelow(elements: seq<int>, marked: set<nat>, n: nat): seq<int>
    requires n <= |elements|
  {
    if n == 0 then []
    else UnmarkedBelow(elements, marked, n - 1) + (if n - 1 in marked then [] else [elements[n - 1]])
  }

  /** `get_all_unmarked_nums`. */
  function Unmarked(elements: seq<int>, marked: set<nat>): seq<int>
  {
    UnmarkedBelow(elements, marked, |elements|)
  }

  /** The unmarked indices below `n`, in increasing order. */
  function UnmarkedIndices(marked: set<nat>, n: nat): seq<nat>
  {
    if n == 0 then []
    else UnmarkedIndices(marked, n - 1) + (if n - 1 in marked then [] else [n - 1])
  }

  /** The unmarked indices below `n` are listed in increasing order,
      each once. */
  lemma {:induction false} UnmarkedIndicesMeaning(marked: set<nat>, n: nat)
    ensures forall j :: 0 <= j < |UnmarkedIndices(marked, n)| ==> UnmarkedIndices(marked, n)[j] < n
    ensures forall i: nat :: i in UnmarkedIndices(marked, n) <==> i < n && i !in marked
    ensures forall a, b :: 0 <= a < b < |UnmarkedIndices(marked, n)| ==>
      UnmarkedIndices(marked, n)[a] < UnmarkedIndices(marked, n)[b]
  {
    if n > 0 {
      UnmarkedIndicesMeaning(marked, n - 1);
      var idx := UnmarkedIndices(marked, n - 1);
      if n - 1 !in marked {
        var idx' := idx + [n - 1];
        assert UnmarkedIndices(marked, n) == idx';
        assert forall i :: i in idx' <==> i in idx || i == n - 1;
        assert forall j :: 0 <= j < |idx| ==> idx'[j] == idx[j];
      }
    }
  }

  /** The unmarked numbers are the numbers at the unmarked indices, taken
      in increasing index order. */
  lemma {:induction false} UnmarkedMeaning(elements: seq<int>, marked: set<nat>, n: nat)
    requires n <= |elements|
    ensures var idx := UnmarkedIndices(marked, n);
      var nums := UnmarkedBelow(elements, marked, n);
      |nums| == |idx| &&
      (forall j :: 0 <= j < |idx| ==> idx[j] < n && nums[j] == elements[idx[j]])
  {
    if n > 0 {
      UnmarkedMeaning(elements, marked, n - 1);
      var idx := UnmarkedIndices(marked, n - 1);
      var nums := UnmarkedBelow(elements, marked, n - 1);
      if n - 1 !in marked {
        var idx' := idx + [n - 1];
        var nums' := nums + [elements[n - 1]];
        assert UnmarkedIndices(marked, n) == idx';
        assert UnmarkedBelow(elements, marked, n) == nums';
        assert forall j :: 0 <= j < |idx| ==> idx'[j] == idx[j] && nums'[j] == nums[j];
      }
    }
  }

  // ---------------------------------------------------------------
  // The score

  /** The sum of the numbers as `u32`, without overflow. */
  function Total(xs: seq<int>): nat
  {
    if |xs| == 0 then 0 else Total(xs[..|xs| - 1]) + AsU32(xs[|xs| - 1])
  }

  /** `fold(0, |c, &e| c + e as u32)`: `None` is the panic when a partial
      sum leaves 32 bits. */
  function SumU32(xs: seq<int>): Option<nat>
  {
    if |xs| == 0 then Some(0)
    else
      match SumU32(xs[..|xs| - 1])
      case None => None
      case Some(c) =>
        var s := c + AsU32(xs[|xs| - 1]);
        if s < U32Limit then Some(s) else None
  }

  /** The fold panics exactly when the true total does not fit in 32 bits,
      and otherwise returns it: partial sums only grow. */
  lemma {:induction false} SumU32Total(xs: seq<int>)
    ensures SumU32(xs) == if Total(xs) < U32Limit then Some(Total(xs)) else None
  {
    if |xs| > 0 {
      SumU32Total(xs[..|xs| - 1]);
    }
  }

  /** `u32` multiplication: `None` is the panic on overflow. */
  function CheckedMul(a: nat, b: nat): (r: Option<nat>)
    ensures r.Some? ==> r.value < U32Limit
  {
    if a * b < U32Limit then Some(a * b) else None
  }

  /** A winning board's score: the sum of its unmarked numbers times the
      draw. */
  function Score(unmarked: seq<int>, num: nat): Option<nat>
  {
    match SumU32(unmarked)
    case None => None
    case Some(s) => CheckedMul(s, num)
  }

  /** The score is the total of the unmarked numbers times the draw, and
      the computation panics when the total or the product leaves 32 bits. */
  lemma ScoreMeaning(unmarked: seq<int>, num: nat)
    ensures Score(unmarked, num) ==
      if Total(unmarked) < U32Limit then CheckedMul(Total(unmarked), num) else None
  {
    SumU32Total(unmarked);
  }

  // ---------------------------------------------------------------
  // BingoBoard

  /** `BingoBoard`: 25 numbers, row by row, and the set of marked indices. */
  class BingoBoard {
    const elements: seq<int>
    var marked: set<nat>

    /** `new`: nothing marked. */
    constructor (elements: seq<int>)
      requires |elements| == 25
      ensures this.elements == elements && marked == {}
    {
      this.elements := elements;
      marked := {};
    }

    /** `mark`: every index holding `num` becomes marked. */
    method Mark(num: int)
      modifies this
      ensures marked == old(marked) + Matches(elements, num)
    {
      for i := 0 to |elements|
        invariant marked == old(marked) + MatchesBelow(elements, num, i)
      {
        if num == elements[i] {
          marked := marked + {i};
        }
        assert MatchesBelow(elements, num, i + 1) ==
          MatchesBelow(elements, num, i) + (if elements[i] == num then {i} else {});
      }
    }

    /** `get_all_unmarked_nums`. */
    method GetAllUnmarkedNums() returns (nums: seq<int>)
      ensures nums == Unmarked(elements, marked)
    {
      nums := [];
      for i := 0 to |elements|
        invariant nums == UnmarkedBelow(elements, marked, i)
      {
        if i !in marked {
          nums := nums + [elements[i]];
        }
      }
    }

    /** `is_winning`: the lines are tried in order and the first fully
        marked one ends the search. */
    method IsWinning() returns (winning: bool)
      ensures winning == Wins(marked)
    {
      for l := 0 to |WinningLines()|
        invariant forall k :: 0 <= k < l ==> !LineMarked(WinningLines()[k], marked)
      {
        var line := WinningLines()[l];
        if LineMarked(line, marked) {
          WinsMeaning(marked);
          return true;
        }
      }
      WinsMeaning(marked);
      return false;
    }
  }

  /** The board test, marking: on the numbers 1 to 25, marking 1 marks
      index 0, and marking 2 to 5 as well marks the first row. */
  lemma BoardSampleMarks()
    ensures var e := seq(25, i => i + 1);
      Matches(e, 1) == {0} &&
      {0} + Matches(e, 2) + Matches(e, 3) + Matches(e, 4) + Matches(e, 5) == {0, 1, 2, 3, 4}
  {
    var e := seq(25, i => i + 1);
    forall num | 1 <= num <= 5
      ensures Matches(e, num) == {num - 1}
    {
      assert e[num - 1] == num;
    }
  }

  /** The board test, winning: index 0 alone does not win, the first row
      does. */
  lemma BoardSampleWins()
    ensures !Wins({0}) && Wins({0, 1, 2, 3, 4})
  {
    forall r | 0 <= r < 5
      ensures !RowDone({0}, r) && !ColumnDone({0}, r)
    {
      assert Cell(r, 1) !in {0} && Cell(1, r) !in {0};
    }
    assert RowDone({0, 1, 2, 3, 4}, 0);
  }

  // ---------------------------------------------------------------
  // Parsing

  /** The first section: comma-separated draws; one that is not a `u32`
      panics. */
  function Draws(section: string): Option<seq<nat>>
  {
    ReadEvery(SplitOn(section, ","), ParseU32)
  }

  /** A board section: whitespace-separated `i32` numbers, which must be
      exactly 25. */
  function BoardOf(section: string): (r: Option<seq<int>>)
    ensures r.Some? ==> |r.value| == 25
  {
    match ReadEvery(Words(section), ParseI32)
    case None => None
    case Some(es) => if |es| == 25 then Some(es) else None
  }

  /** `parse_bingo_input`: the sections between blank lines are the draws
      and then the boards; `None` is a panic. */
  function BingoInput(input: string): Option<(seq<nat>, seq<seq<int>>)>
  {
    var sections := SplitOn(input, "\n\n");
    match Draws(sections[0])
    case None => None
    case Some(nums) =>
      match ReadEvery(sections[1..], BoardOf)
      case None => None
      case Some(boards) => Some((nums, boards))
  }

  /** A board section is read exactly when it holds 25 words, each an
      `i32`, and then the board is those numbers in order. */
  lemma BoardOfMeaning(section: string)
    ensures var words := Words(section);
      BoardOf(section).Some? <==> |words| == 25 && forall k :: 0 <= k < 25 ==> ParseI32(words[k]).Some?
    ensures BoardOf(section).Some? ==>
      forall k :: 0 <= k < 25 ==> BoardOf(section).value[k] == ParseI32(Words(section)[k]).value
  {
    ReadEveryMeaning(Words(section), ParseI32);
  }

  /** The input is read exactly when every draw is a `u32` and every later
      section is a board; then each board has 25 numbers, in the sections'
      order. */
  lemma BingoInputMeaning(input: string)
    ensures var sections := SplitOn(input, "\n\n");
      BingoInput(input).Some? <==>
        Draws(sections[0]).Some? && forall k :: 1 <= k < |sections| ==> BoardOf(sections[k]).Some?
    ensures var sections := SplitOn(input, "\n\n");
      BingoInput(input).Some? ==>
        BingoInput(input).value.0 == Draws(sections[0]).value &&
        |BingoInput(input).value.1| == |sections| - 1 &&
        (forall k :: 1 <= k < |sections| ==> BingoInput(input).value.1[k - 1] == BoardOf(sections[k]).value) &&
        forall k :: 0 <= k < |BingoInput(input).value.1| ==> |BingoInput(input).value.1[k]| == 25
  {
    var sections := SplitOn(input, "\n\n");
    var rest := sections[1..];
    ReadEveryMeaning(rest, BoardOf);
    assert forall k :: 1 <= k < |sections| ==> sections[k] == rest[k - 1];
  }

  /** The loop over one board section's words. */
  method ParseBoard(section: string) returns (r: Option<seq<int>>)
    ensures r == BoardOf(section)
  {
    var words := Words(section);
    var elements: seq<int> := [];
    for k := 0 to |words|
      invariant ReadEvery(words[..k], ParseI32) == Some(elements)
    {
      ReadEveryStep(words, k, ParseI32);
      var element := ParseI32(words[k]);
      if element.None? {
        return None;
      }
      elements := elements + [element.value];
    }
    assert words[..|words|] == words;
    if |elements| != 25 {
      return None;
    }
    return Some(elements);
  }

  /** `parse_bingo_input`, section by section. */
  method ParseBingoInput(input: string) returns (r: Option<(seq<nat>, seq<seq<int>>)>)
    ensures r == BingoInput(input)
  {
    var sections := SplitOn(input, "\n\n");
    var nums := Draws(sections[0]);
    if nums.None? {
      return None;
    }
    var rest := sections[1..];
    var boards: seq<seq<int>> := [];
    for k := 0 to |rest|
      invariant ReadEvery(rest[..k], BoardOf) == Some(boards)
    {
      ReadEveryStep(rest, k, BoardOf);
      var board := ParseBoard(rest[k]);
      if board.None? {
        return None;
      }
      boards := boards + [board.value];
    }
    assert rest[..|rest|] == rest;
    return Some((nums.value, boards));
  }

  // ---------------------------------------------------------------
  // Part one: every board is marked with every draw

  /** The marks of a board after the first `n` draws. */
  function MarksAfter(elements: seq<int>, nums: seq<nat>, n: nat): set<nat>
    requires n <= |nums|
  {
    if n == 0 then {} else MarksAfter(elements, nums, n - 1) + Matches(elements, AsI32(nums[n - 1]))
  }

  /** The board wins once draw `n` is marked. */
  predicate WinsAt(elements: seq<int>, nums: seq<nat>, n: nat)
    requires n < |nums|
  {
    Wins(MarksAfter(elements, nums, n + 1))
  }

  /** Position `p` (a draw, then a board) comes before `q` in the order
      the loops visit them. */
  predicate Before(p: (nat, nat), q: (nat, nat))
  {
    p.0 < q.0 || (p.0 == q.0 && p.1 < q.1)
  }

  /** Part one's search from draw `n`, board `b`: the first position where
      the board wins. */
  function FirstWinFrom(boards: seq<seq<int>>, nums: seq<nat>, n: nat, b: nat): (r: Option<(nat, nat)>)
    requires n <= |nums| && b <= |boards|
    ensures r.Some? ==> r.value.0 < |nums| && r.value.1 < |boards|
    decreases |nums| - n, |boards| - b
  {
    if n == |nums| then None
    else if b == |boards| then FirstWinFrom(boards, nums, n + 1, 0)
    else if WinsAt(boards[b], nums, n) then Some((n, b))
    else FirstWinFrom(boards, nums, n, b + 1)
  }

  /** No board wins at a position from `from` on and before `to`. */
  ghost predicate NoWinBetween(boards: seq<seq<int>>, nums: seq<nat>, from: (nat, nat), to: (nat, nat))
  {
    forall p: (nat, nat) :: !Before(p, from) && Before(p, to) && p.0 < |nums| && p.1 < |boards| ==>
      !WinsAt(boards[p.1], nums, p.0)
  }

  /** The search finds a winning position, and no board wins at a
      position between the start and it. */
  lemma {:induction false} FirstWinFound(boards: seq<seq<int>>, nums: seq<nat>, n: nat, b: nat)
    requires n <= |nums| && b <= |boards|
    ensures FirstWinFrom(boards, nums, n, b).Some? ==>
      var w := FirstWinFrom(boards, nums, n, b).value;
      !Before(w, (n, b)) && WinsAt(boards[w.1], nums, w.0) && NoWinBetween(boards, nums, (n, b), w)
    decreases |nums| - n, |boards| - b
  {
    if n == |nums| || FirstWinFrom(boards, nums, n, b).None? {
    } else if b == |boards| {
      FirstWinFound(boards, nums, n + 1, 0);
      var w := FirstWinFrom(boards, nums, n + 1, 0).value;
      forall p: (nat, nat) | !Before(p, (n, b)) && Before(p, w) && p.0 < |nums| && p.1 < |boards|
        ensures !WinsAt(boards[p.1], nums, p.0)
      {
        assert !Before(p, (n + 1, 0));
      }
    } else if !WinsAt(boards[b], nums, n) {
      FirstWinFound(boards, nums, n, b + 1);
      var w := FirstWinFrom(boards, nums, n, b + 1).value;
      forall p: (nat, nat) | !Before(p, (n, b)) && Before(p, w) && p.0 < |nums| && p.1 < |boards|
        ensures !WinsAt(boards[p.1], nums, p.0)
      {
        if p != (n, b) {
          assert !Before(p, (n, b + 1));
        }
      }
    }
  }

  /** When the search finds nothing, no board wins from the start on. */
  lemma {:induction false} FirstWinNone(boards: seq<seq<int>>, nums: seq<nat>, n: nat, b: nat)
    requires n <= |nums| && b <= |boards|
    ensures FirstWinFrom(boards, nums, n, b).None? ==> NoWinBetween(boards, nums, (n, b), (|nums|, 0))
    decreases |nums| - n, |boards| - b
  {
    if n == |nums| {
    } else if b == |boards| {
      FirstWinNone(boards, nums, n + 1, 0);
      assert forall p: (nat, nat) :: p.1 < |boards| ==> (Before(p, (n, b)) <==> Before(p, (n + 1, 0)));
    } else if !WinsAt(boards[b], nums, n) {
      FirstWinNone(boards, nums, n, b + 1);
    }
  }

  /** The search finds a winning position and no board wins at a position
      between the start and it; it finds none exactly when no board wins
      from the start on. */
  lemma FirstWinMeaning(boards: seq<seq<int>>, nums: seq<nat>, n: nat, b: nat)
    requires n <= |nums| && b <= |boards|
    ensures FirstWinFrom(boards, nums, n, b).Some? ==>
      var w := FirstWinFrom(boards, nums, n, b).value;
      !Before(w, (n, b)) && WinsAt(boards[w.1], nums, w.0) && NoWinBetween(boards, nums, (n, b), w)
    ensures FirstWinFrom(boards, nums, n, b).None? <==> NoWinBetween(boards, nums, (n, b), (|nums|, 0))
  {
    FirstWinFound(boards, nums, n, b);
    FirstWinNone(boards, nums, n, b);
    if FirstWinFrom(boards, nums, n, b).Some? {
      var w := FirstWinFrom(boards, nums, n, b).value;
      assert Before(w, (|nums|, 0));
    }
  }

  /** Part one: the first winner's score, 0 when no board wins, `None` on
      a panic. */
  function PartOneOf(input: string): Option<nat>
  {
    match BingoInput(input)
    case None => None
    case Some((nums, boards)) => FirstWinScore(boards, nums)
  }

  /** The score of the first win of the draws on the boards, 0 when no
      board wins. */
  function FirstWinScore(boards: seq<seq<int>>, nums: seq<nat>): Option<nat>
  {
    match FirstWinFrom(boards, nums, 0, 0)
    case None => Some(0)
    case Some((n, b)) => Score(Unmarked(boards[b], MarksAfter(boards[b], nums, n + 1)), nums[n])
  }

  /** The boards are different objects. */
  predicate Distinct(boards: seq<BingoBoard>)
  {
    forall i, j :: 0 <= i < j < |boards| ==> boards[i] != boards[j]
  }

  /** `BingoBoard::new` for every parsed board. */
  method NewBoards(elems: seq<seq<int>>) returns (boards: seq<BingoBoard>)
    requires forall k :: 0 <= k < |elems| ==> |elems[k]| == 25
    ensures |boards| == |elems| && Distinct(boards)
    ensures forall k :: 0 <= k < |boards| ==> fresh(boards[k]) && boards[k].elements == elems[k] && boards[k].marked == {}
  {
    boards := [];
    for k := 0 to |elems|
      invariant |boards| == k && Distinct(boards)
      invariant forall j :: 0 <= j < k ==> fresh(boards[j]) && boards[j].elements == elems[j] && boards[j].marked == {}
    {
      var board := new BingoBoard(elems[k]);
      boards := boards + [board];
    }
  }

  /** One draw of part one: every board is marked in turn until one wins. */
  method DrawOne(boards: seq<BingoBoard>, elems: seq<seq<int>>, nums: seq<nat>, n: nat) returns (winner: Option<nat>)
    requires n < |nums| && |boards| == |elems| && Distinct(boards)
    requires forall k :: 0 <= k < |boards| ==> boards[k].elements == elems[k] && boards[k].marked == MarksAfter(elems[k], nums, n)
    modifies set k | 0 <= k < |boards| :: boards[k]
    ensures winner.None? ==> FirstWinFrom(elems, nums, n, 0) == FirstWinFrom(elems, nums, n + 1, 0)
    ensures winner.None? ==> forall k :: 0 <= k < |boards| ==> boards[k].marked == MarksAfter(elems[k], nums, n + 1)
    ensures winner.Some? ==> winner.value < |boards| && FirstWinFrom(elems, nums, n, 0) == Some((n, winner.value))
    ensures winner.Some? ==> boards[winner.value].marked == MarksAfter(elems[winner.value], nums, n + 1)
  {
    for b := 0 to |boards|
      invariant forall k :: 0 <= k < |boards| ==> boards[k].marked == MarksAfter(elems[k], nums, if k < b then n + 1 else n)
      invariant FirstWinFrom(elems, nums, n, 0) == FirstWinFrom(elems, nums, n, b)
    {
      boards[b].Mark(AsI32(nums[n]));
      var winning := boards[b].IsWinning();
      if winning {
        return Some(b);
      }
    }
    return None;
  }

  /** `part_one`. */
  method PartOne(input: string) returns (r: Option<nat>)
    ensures r == PartOneOf(input)
  {
    var parsed := ParseBingoInput(input);
    if parsed.None? {
      return None;
    }
    BingoInputMeaning(input);
    r := PlayOne(parsed.value.0, parsed.value.1);
  }

  /** The draws of part one, on the parsed boards. */
  method PlayOne(nums: seq<nat>, elems: seq<seq<int>>) returns (r: Option<nat>)
    requires forall k :: 0 <= k < |elems| ==> |elems[k]| == 25
    ensures r == FirstWinScore(elems, nums)
  {
    var boards := NewBoards(elems);
    for n := 0 to |nums|
      invariant forall k :: 0 <= k < |boards| ==> fresh(boards[k])
      invariant forall k :: 0 <= k < |boards| ==> boards[k].elements == elems[k] && boards[k].marked == MarksAfter(elems[k], nums, n)
      invariant FirstWinFrom(elems, nums, 0, 0) == FirstWinFrom(elems, nums, n, 0)
    {
      var winner := DrawOne(boards, elems, nums, n);
      if winner.Some? {
        var unmarked := boards[winner.value].GetAllUnmarkedNums();
        return Score(unmarked, nums[n]);
      }
    }
    return Some(0);
  }

  // ---------------------------------------------------------------
  // Part two: a board that has won is no longer marked

  /** The marks of a board after the first `n` draws of part two. */
  function MarksTwo(elements: seq<int>, nums: seq<nat>, n: nat): set<nat>
    requires n <= |nums|
  {
    if n == 0 then {}
    else
      var m := MarksTwo(elements, nums, n - 1);
      if Wins(m) then m else m + Matches(elements, AsI32(nums[n - 1]))
  }

  /** The board has won within the first `n` draws. */
  predicate WonBy(elements: seq<int>, nums: seq<nat>, n: nat)
    requires n <= |nums|
  {
    Wins(MarksTwo(elements, nums, n))
  }

  /** Draw `n` makes the board win. */
  predicate WinsTwoAt(elements: seq<int>, nums: seq<nat>, n: nat)
    requires n < |nums|
  {
    !WonBy(elements, nums, n) && WonBy(elements, nums, n + 1)
  }

  /** Once a board has won its marks no longer change. */
  lemma {:induction false} FrozenAfterWin(elements: seq<int>, nums: seq<nat>, n: nat, m: nat)
    requires n <= m <= |nums| && WonBy(elements, nums, n)
    ensures MarksTwo(elements, nums, m) == MarksTwo(elements, nums, n)
    decreases m - n
  {
    if m > n {
      FrozenAfterWin(elements, nums, n, m - 1);
    }
  }

  /** A board wins at most once. */
  lemma WinsOnce(elements: seq<int>, nums: seq<nat>, n: nat, m: nat)
    requires n < m < |nums| && WinsTwoAt(elements, nums, n)
    ensures !WinsTwoAt(elements, nums, m)
  {
    FrozenAfterWin(elements, nums, n + 1, m);
  }

  /** The score of the board that draw `n` makes win. */
  function TwoScore(elements: seq<int>, nums: seq<nat>, n: nat): Option<nat>
    requires n < |nums|
  {
    Score(Unmarked(elements, MarksTwo(elements, nums, n + 1)), nums[n])
  }

  /** The latest score of a fold over the positions of `width` boards per
      draw, visited draw by draw and board by board: `event` says which
      positions are wins and `score` gives a win's score. Before draw `n`,
      board `b` the answer is `None` once a score has panicked, and
      otherwise the latest win's score so far. */
  function Latest(width: nat, n: nat, b: nat, event: ((nat, nat)) -> bool, score: ((nat, nat)) -> Option<nat>): Option<Option<nat>>
    requires b <= width
    decreases n, b
  {
    if b == 0 then
      if n == 0 then Some(None) else Latest(width, n - 1, width, event, score)
    else
      match Latest(width, n, b - 1, event, score)
      case None => None
      case Some(res) =>
        if event((n, b - 1)) then
          match score((n, b - 1))
          case None => None
          case Some(s) => Some(Some(s))
        else Some(res)
  }

  /** The answer is empty exactly when no position before `(n, b)` is a
      win. */
  lemma {:induction false} LatestEmpty(width: nat, n: nat, b: nat, event: ((nat, nat)) -> bool, score: ((nat, nat)) -> Option<nat>)
    requires b <= width
    ensures Latest(width, n, b, event, score) == Some(None) <==>
      forall p: (nat, nat) :: Before(p, (n, b)) && p.1 < width ==> !event(p)
    decreases n, b
  {
    if b == 0 {
      if n > 0 {
        LatestEmpty(width, n - 1, width, event, score);
      }
    } else {
      LatestEmpty(width, n, b - 1, event, score);
      if Latest(width, n, b - 1, event, score).None? {
        LatestPanic(width, n, b - 1, event, score);
        var w: (nat, nat) :| Before(w, (n, b - 1)) && w.1 < width && event(w) && score(w).None?;
        assert Before(w, (n, b));
      }
      assert Before((n, b - 1), (n, b));
    }
  }

  /** A held score is the score of a win with no win after it. */
  lemma {:induction false} LatestHeld(width: nat, n: nat, b: nat, event: ((nat, nat)) -> bool, score: ((nat, nat)) -> Option<nat>)
    requires b <= width
    requires Latest(width, n, b, event, score).Some? && Latest(width, n, b, event, score).value.Some?
    ensures exists w: (nat, nat) ::
      Before(w, (n, b)) && w.1 < width && event(w) && score(w) == Latest(width, n, b, event, score).value &&
      forall p: (nat, nat) :: Before(w, p) && Before(p, (n, b)) && p.1 < width ==> !event(p)
    decreases n, b
  {
    var v := Latest(width, n, b, event, score).value;
    if b == 0 {
      LatestHeld(width, n - 1, width, event, score);
      var w: (nat, nat) :| Before(w, (n - 1, width)) && w.1 < width && event(w) && score(w) == v &&
        forall p: (nat, nat) :: Before(w, p) && Before(p, (n - 1, width)) && p.1 < width ==> !event(p);
      assert Before(w, (n, b));
    } else {
      var q: (nat, nat) := (n, b - 1);
      if event(q) {
        assert Before(q, (n, b)) && score(q) == v;
      } else {
        LatestHeld(width, n, b - 1, event, score);
        var w: (nat, nat) :| Before(w, q) && w.1 < width && event(w) && score(w) == v &&
          forall p: (nat, nat) :: Before(w, p) && Before(p, q) && p.1 < width ==> !event(p);
        assert Before(w, (n, b));
      }
    }
  }

  /** A panicked answer comes from a win whose score panicked. */
  lemma {:induction false} LatestPanic(width: nat, n: nat, b: nat, event: ((nat, nat)) -> bool, score: ((nat, nat)) -> Option<nat>)
    requires b <= width && Latest(width, n, b, event, score).None?
    ensures exists w: (nat, nat) :: Before(w, (n, b)) && w.1 < width && event(w) && score(w).None?
    decreases n, b
  {
    if b == 0 {
      LatestPanic(width, n - 1, width, event, score);
      var w: (nat, nat) :| Before(w, (n - 1, width)) && w.1 < width && event(w) && score(w).None?;
      assert Before(w, (n, b));
    } else if Latest(width, n, b - 1, event, score).None? {
      LatestPanic(width, n, b - 1, event, score);
      var w: (nat, nat) :| Before(w, (n, b - 1)) && w.1 < width && event(w) && score(w).None?;
      assert Before(w, (n, b));
    } else {
      var q: (nat, nat) := (n, b - 1);
      assert Before(q, (n, b)) && event(q) && score(q).None?;
    }
  }

  /** Once a score has panicked, the answer stays panicked. */
  lemma {:induction false} PanicStays(width: nat, n: nat, b: nat, n2: nat, b2: nat, event: ((nat, nat)) -> bool, score: ((nat, nat)) -> Option<nat>)
    requires b <= width && b2 <= width
    requires Latest(width, n, b, event, score).None? && !Before((n2, b2), (n, b))
    ensures Latest(width, n2, b2, event, score).None?
    decreases n2, b2
  {
    if (n2, b2) != (n, b) {
      if b2 == 0 {
        PanicStays(width, n, b, n2 - 1, width, event, score);
      } else {
        PanicStays(width, n, b, n2, b2 - 1, event, score);
      }
    }
  }

  /** When no position from draw `n` on is a win, the answer after draw
      `n` is the final one. */
  lemma {:induction false} QuietStays(width: nat, n: nat, n2: nat, b2: nat, event: ((nat, nat)) -> bool, score: ((nat, nat)) -> Option<nat>)
    requires n <= n2 && b2 <= width
    requires forall p: (nat, nat) :: n <= p.0 && p.1 < width ==> !event(p)
    ensures Latest(width, n2, b2, event, score) == Latest(width, n, 0, event, score)
    decreases n2, b2
  {
    if b2 == 0 {
      if n2 > n {
        QuietStays(width, n, n2 - 1, width, event, score);
      }
    } else {
      QuietStays(width, n, n2, b2 - 1, event, score);
      assert !event((n2, b2 - 1));
    }
  }

  /** Part two's wins: draw `p.0` makes board `p.1` win. */
  function TwoEvent(boards: seq<seq<int>>, nums: seq<nat>): ((nat, nat)) -> bool
  {
    (p: (nat, nat)) => p.0 < |nums| && p.1 < |boards| && WinsTwoAt(boards[p.1], nums, p.0)
  }

  /** Part two's score of a win. */
  function TwoEventScore(boards: seq<seq<int>>, nums: seq<nat>): ((nat, nat)) -> Option<nat>
  {
    (p: (nat, nat)) => if p.0 < |nums| && p.1 < |boards| then TwoScore(boards[p.1], nums, p.0) else None
  }

  /** Part two's running answer before draw `n`, board `b`: `None` once
      a score has panicked, otherwise the latest winner's score so far. */
  function TwoBefore(boards: seq<seq<int>>, nums: seq<nat>, n: nat, b: nat): Option<Option<nat>>
    requires b <= |boards|
    decreases n, b
  {
    if b == 0 then
      if n == 0 then Some(None) else TwoBefore(boards, nums, n - 1, |boards|)
    else
      match TwoBefore(boards, nums, n, b - 1)
      case None => None
      case Some(res) =>
        if n < |nums| && WinsTwoAt(boards[b - 1], nums, n) then
          match TwoScore(boards[b - 1], nums, n)
          case None => None
          case Some(s) => Some(Some(s))
        else Some(res)
  }

  /** The running answer is the `Latest` fold over part two's wins. */
  lemma {:induction false} TwoBeforeIsLatest(boards: seq<seq<int>>, nums: seq<nat>, n: nat, b: nat)
    requires b <= |boards|
    ensures TwoBefore(boards, nums, n, b) == Latest(|boards|, n, b, TwoEvent(boards, nums), TwoEventScore(boards, nums))
    decreases n, b
  {
    var event := TwoEvent(boards, nums);
    var score := TwoEventScore(boards, nums);
    if b == 0 {
      if n > 0 {
        TwoBeforeIsLatest(boards, nums, n - 1, |boards|);
      }
    } else {
      TwoBeforeIsLatest(boards, nums, n, b - 1);
      assert event((n, b - 1)) == (n < |nums| && WinsTwoAt(boards[b - 1], nums, n));
      if n < |nums| {
        assert score((n, b - 1)) == TwoScore(boards[b - 1], nums, n);
      }
    }
  }

  /** Once every board has won nothing more happens: the answer after
      draw `n` is the final one. */
  lemma AllWonStops(boards: seq<seq<int>>, nums: seq<nat>, n: nat)
    requires n <= |nums| && forall k :: 0 <= k < |boards| ==> WonBy(boards[k], nums, n)
    ensures TwoBefore(boards, nums, |nums|, 0) == TwoBefore(boards, nums, n, 0)
  {
    var event := TwoEvent(boards, nums);
    forall p: (nat, nat) | n <= p.0 && p.1 < |boards|
      ensures !event(p)
    {
      if p.0 < |nums| {
        FrozenAfterWin(boards[p.1], nums, n, p.0);
      }
    }
    QuietStays(|boards|, n, |nums|, 0, event, TwoEventScore(boards, nums));
    TwoBeforeIsLatest(boards, nums, n, 0);
    TwoBeforeIsLatest(boards, nums, |nums|, 0);
  }

  /** Part two's answer is empty exactly when no board ever wins. */
  lemma LastWinNone(boards: seq<seq<int>>, nums: seq<nat>)
    ensures TwoBefore(boards, nums, |nums|, 0) == Some(None) <==>
      forall n, b :: 0 <= n < |nums| && 0 <= b < |boards| ==> !WinsTwoAt(boards[b], nums, n)
  {
    var event := TwoEvent(boards, nums);
    var end: (nat, nat) := (|nums|, 0);
    TwoBeforeIsLatest(boards, nums, |nums|, 0);
    LatestEmpty(|boards|, |nums|, 0, event, TwoEventScore(boards, nums));
    if forall n, b :: 0 <= n < |nums| && 0 <= b < |boards| ==> !WinsTwoAt(boards[b], nums, n) {
      forall p: (nat, nat) | Before(p, end) && p.1 < |boards|
        ensures !event(p)
      {
      }
    } else {
      var n, b :| 0 <= n < |nums| && 0 <= b < |boards| && WinsTwoAt(boards[b], nums, n);
      var p: (nat, nat) := (n, b);
      assert Before(p, end) && event(p);
    }
  }

  /** A held answer is the score of some board's win with no win after
      it. */
  lemma LastWinHeld(boards: seq<seq<int>>, nums: seq<nat>)
    requires TwoBefore(boards, nums, |nums|, 0).Some? && TwoBefore(boards, nums, |nums|, 0).value.Some?
    ensures exists n: nat, b: nat ::
      n < |nums| && b < |boards| && WinsTwoAt(boards[b], nums, n) &&
      TwoScore(boards[b], nums, n) == TwoBefore(boards, nums, |nums|, 0).value &&
      forall n2: nat, b2: nat :: b2 < |boards| && (n < n2 < |nums| || (n2 == n && b < b2)) ==> !WinsTwoAt(boards[b2], nums, n2)
  {
    var event := TwoEvent(boards, nums);
    var score := TwoEventScore(boards, nums);
    var end: (nat, nat) := (|nums|, 0);
    var v := TwoBefore(boards, nums, |nums|, 0).value;
    TwoBeforeIsLatest(boards, nums, |nums|, 0);
    LatestHeld(|boards|, |nums|, 0, event, score);
    var w: (nat, nat) :| Before(w, end) && w.1 < |boards| && event(w) && score(w) == v &&
      forall p: (nat, nat) :: Before(w, p) && Before(p, end) && p.1 < |boards| ==> !event(p);
    var n, b := w.0, w.1;
    assert n < |nums| && WinsTwoAt(boards[b], nums, n);
    assert TwoScore(boards[b], nums, n) == v;
    NoLaterWin(boards, nums, w);
  }

  /** No win after `w` among the positions, read as draws and boards. */
  lemma NoLaterWin(boards: seq<seq<int>>, nums: seq<nat>, w: (nat, nat))
    requires w.0 < |nums|
    requires forall p: (nat, nat) :: Before(w, p) && Before(p, (|nums|, 0)) && p.1 < |boards| ==> !TwoEvent(boards, nums)(p)
    ensures forall n2: nat, b2: nat :: b2 < |boards| && (w.0 < n2 < |nums| || (n2 == w.0 && w.1 < b2)) ==>
      !WinsTwoAt(boards[b2], nums, n2)
  {
    forall n2: nat, b2: nat | b2 < |boards| && (w.0 < n2 < |nums| || (n2 == w.0 && w.1 < b2))
      ensures !WinsTwoAt(boards[b2], nums, n2)
    {
      var p := (n2, b2);
      assert Before(w, p) && Before(p, (|nums|, 0));
      assert !TwoEvent(boards, nums)(p);
    }
  }

  /** A panicked answer comes from a win whose score overflowed. */
  lemma LastWinPanic(boards: seq<seq<int>>, nums: seq<nat>)
    requires TwoBefore(boards, nums, |nums|, 0).None?
    ensures exists n, b :: 0 <= n < |nums| && 0 <= b < |boards| && WinsTwoAt(boards[b], nums, n) && TwoScore(boards[b], nums, n).None?
  {
    TwoBeforeIsLatest(boards, nums, |nums|, 0);
    LatestPanic(|boards|, |nums|, 0, TwoEvent(boards, nums), TwoEventScore(boards, nums));
  }

  /** A panic in draw `n` ends part two with a panic. */
  lemma TwoPanicStays(boards: seq<seq<int>>, nums: seq<nat>, n: nat, b: nat, n2: nat)
    requires b <= |boards| && n <= n2 && (n < n2 || b == 0) && TwoBefore(boards, nums, n, b).None?
    ensures TwoBefore(boards, nums, n2, 0).None?
  {
    TwoBeforeIsLatest(boards, nums, n, b);
    TwoBeforeIsLatest(boards, nums, n2, 0);
    PanicStays(|boards|, n, b, n2, 0, TwoEvent(boards, nums), TwoEventScore(boards, nums));
  }

  /** Part two: the last winner's score; `None` on a panic, which includes
      no board winning at all. */
  function PartTwoOf(input: string): Option<nat>
  {
    match BingoInput(input)
    case None => None
    case Some((nums, boards)) =>
      match TwoBefore(boards, nums, |nums|, 0)
      case Some(Some(s)) => Some(s)
      case _ => None
  }

  /** Every board holds its marks after the first `n` draws. */
  predicate MarkedAll(boards: seq<BingoBoard>, elems: seq<seq<int>>, nums: seq<nat>, n: nat)
    requires n <= |nums|
    reads boards
  {
    |boards| == |elems| &&
    forall k :: 0 <= k < |boards| ==> boards[k].elements == elems[k] && boards[k].marked == MarksTwo(elems[k], nums, n)
  }

  /** During draw `n`, boards before `b` hold their marks after the
      draw and the others their marks before it. */
  predicate MarkedTwo(boards: seq<BingoBoard>, elems: seq<seq<int>>, nums: seq<nat>, n: nat, b: nat)
    requires n < |nums|
    reads boards
  {
    |boards| == |elems| &&
    (forall k :: 0 <= k < |boards| ==> boards[k].elements == elems[k]) &&
    (forall k :: 0 <= k < b && k < |boards| ==> boards[k].marked == MarksTwo(elems[k], nums, n + 1)) &&
    (forall k :: b <= k < |boards| ==> boards[k].marked == MarksTwo(elems[k], nums, n))
  }

  /** One draw of part two: boards that have not won are marked, and every
      new winner's score replaces the answer. */
  method DrawTwo(boards: seq<BingoBoard>, elems: seq<seq<int>>, nums: seq<nat>, n: nat, res: Option<nat>)
    returns (state: Option<Option<nat>>)
    requires n < |nums| && Distinct(boards) && MarkedAll(boards, elems, nums, n)
    requires TwoBefore(elems, nums, n, 0) == Some(res)
    modifies boards
    ensures state.None? ==> TwoBefore(elems, nums, n + 1, 0).None?
    ensures state.Some? ==> TwoBefore(elems, nums, n + 1, 0) == state
    ensures state.Some? ==> MarkedAll(boards, elems, nums, n + 1)
  {
    var current := res;
    for b := 0 to |boards|
      invariant MarkedTwo(boards, elems, nums, n, b)
      invariant TwoBefore(elems, nums, n, b) == Some(current)
    {
      var next := TurnTwo(boards, elems, nums, n, b, current);
      if next.None? {
        TwoPanicStays(elems, nums, n, b + 1, n + 1);
        return None;
      }
      current := next.value;
    }
    return Some(current);
  }

  /** Board `b`'s turn in draw `n` of part two: a board that has not won
      is marked, and if that makes it win its score replaces the answer;
      `None` is a panic. */
  method TurnTwo(boards: seq<BingoBoard>, elems: seq<seq<int>>, nums: seq<nat>, n: nat, b: nat, current: Option<nat>)
    returns (next: Option<Option<nat>>)
    requires n < |nums| && b < |boards| && Distinct(boards) && MarkedTwo(boards, elems, nums, n, b)
    requires TwoBefore(elems, nums, n, b) == Some(current)
    modifies boards[b]
    ensures MarkedTwo(boards, elems, nums, n, b + 1)
    ensures TwoBefore(elems, nums, n, b + 1) == next
  {
    var winning, score := BoardTurn(boards[b], nums, n);
    forall k | 0 <= k < |boards|
      ensures boards[k].elements == elems[k] && boards[k].marked == MarksTwo(elems[k], nums, if k < b + 1 then n + 1 else n)
    {
      if k != b {
        assert boards[k] != boards[b];
      }
    }
    if !winning {
      next := Some(current);
    } else if score.None? {
      next := None;
    } else {
      next := Some(score);
    }
  }

  /** The turn of one board that holds its marks before draw `n`. */
  method BoardTurn(board: BingoBoard, nums: seq<nat>, n: nat) returns (winning: bool, score: Option<nat>)
    requires n < |nums| && board.marked == MarksTwo(board.elements, nums, n)
    modifies board
    ensures board.marked == MarksTwo(board.elements, nums, n + 1)
    ensures winning == WinsTwoAt(board.elements, nums, n)
    ensures winning ==> score == TwoScore(board.elements, nums, n)
  {
    winning := false;
    score := None;
    var won := board.IsWinning();
    if !won {
      board.Mark(AsI32(nums[n]));
      winning := board.IsWinning();
      if winning {
        var unmarked := board.GetAllUnmarkedNums();
        score := Score(unmarked, nums[n]);
      }
    }
  }

  /** `boards.iter().all(|b| b.is_winning())`. */
  method AllWinning(boards: seq<BingoBoard>) returns (all: bool)
    ensures all <==> forall k :: 0 <= k < |boards| ==> Wins(boards[k].marked)
  {
    for k := 0 to |boards|
      invariant forall j :: 0 <= j < k ==> Wins(boards[j].marked)
    {
      var winning := boards[k].IsWinning();
      if !winning {
        return false;
      }
    }
    return true;
  }

  /** `part_two`. */
  method PartTwo(input: string) returns (r: Option<nat>)
    ensures r == PartTwoOf(input)
  {
    var parsed := ParseBingoInput(input);
    if parsed.None? {
      return None;
    }
    BingoInputMeaning(input);
    r := PlayTwo(parsed.value.0, parsed.value.1);
  }

  /** The draws of part two, on the parsed boards. */
  method PlayTwo(nums: seq<nat>, elems: seq<seq<int>>) returns (r: Option<nat>)
    requires forall k :: 0 <= k < |elems| ==> |elems[k]| == 25
    ensures r == match TwoBefore(elems, nums, |nums|, 0)
      case Some(Some(s)) => Some(s)
      case _ => None
  {
    var boards := NewBoards(elems);
    var res: Option<nat> := None;
    for n := 0 to |nums|
      invariant forall k :: 0 <= k < |boards| ==> fresh(boards[k])
      invariant MarkedAll(boards, elems, nums, n)
      invariant TwoBefore(elems, nums, n, 0) == Some(res)
    {
      var state := DrawTwo(boards, elems, nums, n, res);
      if state.None? {
        TwoPanicStays(elems, nums, n + 1, 0, |nums|);
        return None;
      }
      res := state.value;
      var all := AllWinning(boards);
      if all {
        assert forall k :: 0 <= k < |elems| ==> WonBy(elems[k], nums, n + 1) by {
          forall k | 0 <= k < |elems|
            ensures WonBy(elems[k], nums, n + 1)
          {
            assert Wins(boards[k].marked);
          }
        }
        AllWonStops(elems, nums, n + 1);
        return res;
      }
    }
    return res;
  }
}

/** Day 8 of 2022, "Treetop Tree House": a grid of tree heights, one digit
    per tree. Part one counts the trees visible from outside the grid along
    a row or a column; part two finds the best scenic score, the product of
    the viewing distances in the four directions. Both work on the rows and
    on the columns separately and meet in a set or a map of grid cells. */
module TreetopTreeHouse {
  import opened Wrappers

  type Grid = seq<seq<int>>

  /** `char::to_digit(10)`. */
  function Digit(c: char): (r: Option<int>)
    ensures r.Some? <==> '0' <= c <= '9'
    ensures r.Some? ==> 0 <= r.value <= 9
  {
    if '0' <= c <= '9' then Some(c as int - '0' as int) else None
  }

  predicate Digits(line: string)
  {
    forall i :: 0 <= i < |line| ==> Digit(line[i]).Some?
  }

  predicate AllDigits(lines: seq<string>)
  {
    forall k :: 0 <= k < |lines| ==> Digits(lines[k])
  }

  /** The heights of one line. */
  function RowOf(line: string): seq<int>
    requires Digits(line)
  {
    seq(|line|, i requires 0 <= i < |line| => Digit(line[i]).value)
  }

  /** The rows of the grid, one per line. */
  function Rows(lines: seq<string>): Grid
    requires AllDigits(lines)
  {
    seq(|lines|, k requires 0 <= k < |lines| => RowOf(lines[k]))
  }

  // ---------------------------------------------------------------
  // Columns

  /** The columns after the first `n` cells of `row` are pushed, a new
      column opened at every position past the last. */
  function PushCells(cols: Grid, row: seq<int>, n: nat): (r: Grid)
    requires n <= |row|
    ensures |r| == if n <= |cols| then |cols| else n
  {
    var len := if n <= |cols| then |cols| else n;
    seq(len, c requires 0 <= c < len => (if c < |cols| then cols[c] else []) + (if c < n then [row[c]] else []))
  }

  /** The columns built from the rows in order. */
  function ColumnsOf(rows: Grid): Grid
  {
    if |rows| == 0 then []
    else
      var row := rows[|rows| - 1];
      PushCells(ColumnsOf(rows[..|rows| - 1]), row, |row|)
  }

  /** Column `c`: the cells at position `c` of the rows that reach it, top
      to bottom. */
  function Column(rows: Grid, c: nat): seq<int>
  {
    if |rows| == 0 then []
    else
      var row := rows[|rows| - 1];
      Column(rows[..|rows| - 1], c) + (if c < |row| then [row[c]] else [])
  }

  /** The length of the longest row. */
  function Width(rows: Grid): (r: nat)
    ensures forall k :: 0 <= k < |rows| ==> |rows[k]| <= r
  {
    if |rows| == 0 then 0
    else
      var w := Width(rows[..|rows| - 1]);
      var row := rows[|rows| - 1];
      assert forall k :: 0 <= k < |rows| - 1 ==> rows[k] == rows[..|rows| - 1][k];
      if |row| > w then |row| else w
  }

  /** No row reaches past the widest one. */
  lemma {:induction false} ColumnBeyond(rows: Grid, c: nat)
    requires c >= Width(rows)
    ensures Column(rows, c) == []
  {
    if |rows| > 0 {
      ColumnBeyond(rows[..|rows| - 1], c);
    }
  }

  /** `parse_input` makes one column per position of the widest row, and
      column `c` holds position `c` of every row that reaches it. */
  lemma {:induction false} ColumnsMeaning(rows: Grid)
    ensures |ColumnsOf(rows)| == Width(rows)
    ensures forall c :: 0 <= c < Width(rows) ==> ColumnsOf(rows)[c] == Column(rows, c)
  {
    if |rows| > 0 {
      var init := rows[..|rows| - 1];
      ColumnsMeaning(init);
      forall c | 0 <= c < Width(rows) ensures ColumnsOf(rows)[c] == Column(rows, c) {
        if c >= Width(init) {
          ColumnBeyond(init, c);
        }
      }
    }
  }

  /** In a grid whose rows have one width, column `c` has a cell per row
      and its cell `r` is row `r`'s cell `c`. */
  lemma {:induction false} ColumnOfGrid(rows: Grid, w: nat, c: nat)
    requires forall k :: 0 <= k < |rows| ==> |rows[k]| == w
    requires c < w
    ensures |Column(rows, c)| == |rows|
    ensures forall r :: 0 <= r < |rows| ==> Column(rows, c)[r] == rows[r][c]
  {
    if |rows| > 0 {
      var init := rows[..|rows| - 1];
      ColumnOfGrid(init, w, c);
    }
  }

  /** One line parsed while its cells are pushed onto the columns. */
  method PushLine(columns: Grid, line: string) returns (ok: bool, row: seq<int>, cols: Grid)
    ensures ok <==> Digits(line)
    ensures ok ==> row == RowOf(line) && cols == PushCells(columns, row, |row|)
  {
    row := [];
    cols := columns;
    forall c | 0 <= c < |columns| ensures PushCells(columns, row, 0)[c] == columns[c] {
      assert columns[c] + [] == columns[c];
    }
    for i := 0 to |line|
      invariant |row| == i && forall m :: 0 <= m < i ==> Digit(line[m]).Some? && row[m] == Digit(line[m]).value
      invariant cols == PushCells(columns, row, i)
    {
      var height := Digit(line[i]);
      if height.None? {
        return false, row, cols;
      }
      var grown := row + [height.value];
      assert PushCells(columns, row, i) == PushCells(columns, grown, i);
      row := grown;
      if i >= |cols| {
        cols := cols + [[]];
      }
      cols := cols[i := cols[i] + [height.value]];
      assert cols == PushCells(columns, row, i + 1);
    }
    ok := true;
  }

  /** `parse_input`: the rows and the columns of the grid; `None` where a
      character is not a digit (a panic in the source). */
  method ParseInput(lines: seq<string>) returns (r: Option<(Grid, Grid)>)
    ensures r.Some? <==> AllDigits(lines)
    ensures r.Some? ==> r.value.0 == Rows(lines) && r.value.1 == ColumnsOf(Rows(lines))
  {
    var rows: Grid := [];
    var columns: Grid := [];
    for k := 0 to |lines|
      invariant forall m :: 0 <= m < k ==> Digits(lines[m])
      invariant rows == Rows(lines[..k]) && columns == ColumnsOf(rows)
    {
      var ok, row, cols := PushLine(columns, lines[k]);
      if !ok {
        return None;
      }
      assert (rows + [row])[..|rows|] == rows;
      rows := rows + [row];
      columns := cols;
      assert rows == Rows(lines[..k + 1]);
    }
    assert lines[..|lines|] == lines;
    r := Some((rows, columns));
  }

  // ---------------------------------------------------------------
  // get_visible_trees

  /** The tallest height at positions `lo` to `hi - 1`, or -1 if there
      are none. */
  function Tallest(trees: seq<int>, lo: nat, hi: nat): int
    requires lo <= hi <= |trees|
    decreases hi
  {
    if hi == lo then -1
    else
      var t := Tallest(trees, lo, hi - 1);
      if trees[hi - 1] > t then trees[hi - 1] else t
  }

  /** A height beats the tallest of a range exactly when it exceeds -1
      and every height of the range. */
  lemma {:induction false} TallestMeaning(trees: seq<int>, lo: nat, hi: nat, h: int)
    requires lo <= hi <= |trees|
    ensures h > Tallest(trees, lo, hi) <==> h > -1 && forall j :: lo <= j < hi ==> trees[j] < h
    decreases hi
  {
    if hi > lo {
      TallestMeaning(trees, lo, hi - 1, h);
    }
  }

  /** The tree at `i` is taller than the tallest to its left, or than the
      tallest to its right, each starting from -1. */
  predicate IsVisible(trees: seq<int>, i: nat)
    requires i < |trees|
  {
    trees[i] > Tallest(trees, 0, i) || trees[i] > Tallest(trees, i + 1, |trees|)
  }

  /** A tree of a row of heights that are not negative is visible exactly
      when every tree to its left, or every tree to its right, is
      shorter. */
  lemma VisibleMeaning(trees: seq<int>, i: nat)
    requires i < |trees| && forall j :: 0 <= j < |trees| ==> trees[j] >= 0
    ensures IsVisible(trees, i) <==>
      (forall j :: 0 <= j < i ==> trees[j] < trees[i]) || (forall j :: i < j < |trees| ==> trees[j] < trees[i])
  {
    TallestMeaning(trees, 0, i, trees[i]);
    TallestMeaning(trees, i + 1, |trees|, trees[i]);
  }

  /** The visible positions among the first `n`, in order. */
  function VisibleUpTo(trees: seq<int>, n: nat): seq<nat>
    requires n <= |trees|
  {
    if n == 0 then []
    else VisibleUpTo(trees, n - 1) + (if IsVisible(trees, n - 1) then [n - 1] else [])
  }

  /** What `get_visible_trees` answers. */
  function VisibleIndices(trees: seq<int>): seq<nat>
  {
    VisibleUpTo(trees, |trees|)
  }

  /** The visible positions are exactly the positions of visible trees,
      in strictly increasing order. */
  lemma {:induction false} VisibleUpToMeaning(trees: seq<int>, n: nat)
    requires n <= |trees|
    ensures forall i :: i in VisibleUpTo(trees, n) <==> 0 <= i < n && IsVisible(trees, i)
    ensures forall a, b :: 0 <= a < b < |VisibleUpTo(trees, n)| ==> VisibleUpTo(trees, n)[a] < VisibleUpTo(trees, n)[b]
  {
    if n > 0 {
      VisibleUpToMeaning(trees, n - 1);
      var prev := VisibleUpTo(trees, n - 1);
      assert forall a :: 0 <= a < |prev| ==> prev[a] in prev;
    }
  }

  /** In a non-empty row of heights that are not negative the first and the
      last tree are always visible. */
  lemma EdgesVisible(trees: seq<int>)
    requires |trees| > 0 && forall j :: 0 <= j < |trees| ==> trees[j] >= 0
    ensures 0 in VisibleIndices(trees) && |trees| - 1 in VisibleIndices(trees)
  {
    VisibleUpToMeaning(trees, |trees|);
    VisibleMeaning(trees, 0);
    VisibleMeaning(trees, |trees| - 1);
  }

  /** The source's tests of `get_visible_trees` on 3 0 3 7 3 and
      2 5 5 1 2. */
  lemma VisibleSample()
    ensures VisibleIndices([3, 0, 3, 7, 3]) == [0, 3, 4]
    ensures VisibleIndices([2, 5, 5, 1, 2]) == [0, 1, 2, 4]
  {
    var a := [3, 0, 3, 7, 3];
    VisibleMeaning(a, 0);
    VisibleMeaning(a, 1);
    VisibleMeaning(a, 2);
    VisibleMeaning(a, 3);
    VisibleMeaning(a, 4);
    assert !IsVisible(a, 1) && !IsVisible(a, 2);
    var b := [2, 5, 5, 1, 2];
    VisibleMeaning(b, 0);
    VisibleMeaning(b, 1);
    VisibleMeaning(b, 2);
    VisibleMeaning(b, 3);
    VisibleMeaning(b, 4);
    assert !IsVisible(b, 3);
  }

  /** The inner loop of `get_visible_trees`: the tallest trees to the left
      and to the right of `i`, each from -1. */
  method VisibleAt(trees: seq<int>, i: nat) returns (visible: bool)
    requires i < |trees|
    ensures visible == IsVisible(trees, i)
  {
    var tallestLeft := -1;
    var tallestRight := -1;
    for j := 0 to |trees|
      invariant tallestLeft == Tallest(trees, 0, if j < i then j else i)
      invariant tallestRight == Tallest(trees, i + 1, if j > i + 1 then j else i + 1)
    {
      if j < i && trees[j] > tallestLeft {
        tallestLeft := trees[j];
      }
      if j > i && trees[j] > tallestRight {
        tallestRight := trees[j];
      }
    }
    visible := trees[i] > tallestLeft || trees[i] > tallestRight;
  }

  /** `get_visible_trees`. */
  method GetVisibleTrees(trees: seq<int>) returns (res: seq<nat>)
    ensures res == VisibleIndices(trees)
  {
    res := [];
    for i := 0 to |trees|
      invariant res == VisibleUpTo(trees, i)
    {
      var visible := VisibleAt(trees, i);
      if visible {
        res := res + [i];
      }
    }
  }

  // ---------------------------------------------------------------
  // get_visible_trees_with_views

  /** The nearest position below `j` whose tree is at least as tall as the
      tree at `i`. */
  function BlockerBelow(trees: seq<int>, i: nat, j: nat): (r: Option<nat>)
    requires i < |trees| && j <= |trees|
    ensures r.Some? ==> r.value < j
  {
    if j == 0 then None
    else if trees[j - 1] >= trees[i] then Some(j - 1)
    else BlockerBelow(trees, i, j - 1)
  }

  /** The first position from `j` on whose tree is at least as tall as the
      tree at `i`. */
  function BlockerFrom(trees: seq<int>, i: nat, j: nat): (r: Option<nat>)
    requires i < |trees| && j <= |trees|
    ensures r.Some? ==> j <= r.value < |trees|
    decreases |trees| - j
  {
    if j == |trees| then None
    else if trees[j] >= trees[i] then Some(j)
    else BlockerFrom(trees, i, j + 1)
  }

  /** The viewing distance to the left: to the nearest tree at least as
      tall, or to the edge. */
  function ViewLeft(trees: seq<int>, i: nat): nat
    requires i < |trees|
  {
    match BlockerBelow(trees, i, i)
    case None => i
    case Some(k) => i - k
  }

  /** The viewing distance to the right: to the first tree at least as
      tall, or to the edge. */
  function ViewRight(trees: seq<int>, i: nat): nat
    requires i < |trees|
  {
    match BlockerFrom(trees, i, i + 1)
    case None => |trees| - 1 - i
    case Some(k) => k - i
  }

  lemma {:induction false} BlockerBelowMeaning(trees: seq<int>, i: nat, j: nat)
    requires i < |trees| && j <= |trees|
    ensures var r := BlockerBelow(trees, i, j);
      (r.Some? ==> trees[r.value] >= trees[i] && forall k :: r.value < k < j ==> trees[k] < trees[i]) &&
      (r.None? ==> forall k :: 0 <= k < j ==> trees[k] < trees[i])
  {
    if j > 0 {
      BlockerBelowMeaning(trees, i, j - 1);
    }
  }

  lemma {:induction false} BlockerFromMeaning(trees: seq<int>, i: nat, j: nat)
    requires i < |trees| && j <= |trees|
    ensures var r := BlockerFrom(trees, i, j);
      (r.Some? ==> trees[r.value] >= trees[i] && forall k :: j <= k < r.value ==> trees[k] < trees[i]) &&
      (r.None? ==> forall k :: j <= k < |trees| ==> trees[k] < trees[i])
    decreases |trees| - j
  {
    if j < |trees| {
      BlockerFromMeaning(trees, i, j + 1);
    }
  }

  /** The view to the left reaches `d` trees: every tree passed is shorter,
      and the last one seen is at least as tall or stands at the edge. */
  lemma ViewLeftMeaning(trees: seq<int>, i: nat)
    requires i < |trees|
    ensures var d := ViewLeft(trees, i);
      d <= i && (d == 0 <==> i == 0) &&
      (forall k :: i - d < k < i ==> trees[k] < trees[i]) &&
      (d == i || trees[i - d] >= trees[i])
  {
    BlockerBelowMeaning(trees, i, i);
  }

  /** The view to the right reaches `d` trees: every tree passed is
      shorter, and the last one seen is at least as tall or stands at the
      edge. */
  lemma ViewRightMeaning(trees: seq<int>, i: nat)
    requires i < |trees|
    ensures var d := ViewRight(trees, i);
      i + d < |trees| && (d == 0 <==> i == |trees| - 1) &&
      (forall k :: i < k < i + d ==> trees[k] < trees[i]) &&
      (i + d == |trees| - 1 || trees[i + d] >= trees[i])
  {
    BlockerFromMeaning(trees, i, i + 1);
  }

  /** The source's test of `get_visible_trees_with_views` on 2 5 5 1 2. */
  lemma ViewsSample()
    ensures var t := [2, 5, 5, 1, 2];
      ViewLeft(t, 0) == 0 && ViewRight(t, 0) == 1 &&
      ViewLeft(t, 1) == 1 && ViewRight(t, 1) == 1 &&
      ViewLeft(t, 2) == 1 && ViewRight(t, 2) == 2 &&
      ViewLeft(t, 3) == 1 && ViewRight(t, 3) == 1 &&
      ViewLeft(t, 4) == 2 && ViewRight(t, 4) == 0
  {
  }

  /** The inner loop of `get_visible_trees_with_views`: the left distance
      is the last blocker seen, the right distance runs until the first
      blocker. */
  method ViewsAt(trees: seq<int>, i: nat) returns (viewLeft: nat, viewRight: nat)
    requires i < |trees|
    ensures viewLeft == ViewLeft(trees, i) && viewRight == ViewRight(trees, i)
  {
    viewLeft := i;
    viewRight := |trees| - i - 1;
    var j := 0;
    while j < |trees|
      invariant j <= |trees|
      invariant viewLeft == (match BlockerBelow(trees, i, if j < i then j else i) case None => i case Some(k) => i - k)
      invariant j <= i + 1 ==> viewRight == |trees| - i - 1
      invariant j > i + 1 ==> viewRight == j - 1 - i && BlockerFrom(trees, i, i + 1) == BlockerFrom(trees, i, j)
    {
      if j < i && trees[j] >= trees[i] {
        viewLeft := i - j;
      }
      if j > i {
        viewRight := j - i;
        if trees[j] >= trees[i] {
          break;
        }
      }
      j := j + 1;
    }
  }

  /** `get_visible_trees_with_views`: each position with its two viewing
      distances. */
  method GetVisibleTreesWithViews(trees: seq<int>) returns (res: seq<(nat, nat, nat)>)
    ensures |res| == |trees|
    ensures forall i :: 0 <= i < |trees| ==> res[i] == (i, ViewLeft(trees, i), ViewRight(trees, i))
  {
    res := [];
    for i := 0 to |trees|
      invariant |res| == i
      invariant forall m :: 0 <= m < i ==> res[m] == (m, ViewLeft(trees, m), ViewRight(trees, m))
    {
      var viewLeft, viewRight := ViewsAt(trees, i);
      res := res + [(i, viewLeft, viewRight)];
    }
  }

  // ---------------------------------------------------------------
  // part_one

  /** The cells marked by the row pass of the first `n` rows. */
  function RowMarks(rows: Grid, n: nat): set<(nat, nat)>
    requires n <= |rows|
  {
    set r: nat, c: nat | r < n && c < |rows[r]| && IsVisible(rows[r], c) :: (r, c)
  }

  /** The cells marked by the column pass of the first `n` columns: the
      row index is the position within the column. */
  function ColumnMarks(columns: Grid, n: nat): set<(nat, nat)>
    requires n <= |columns|
  {
    set c: nat, r: nat | c < n && r < |columns[c]| && IsVisible(columns[c], r) :: (r, c)
  }

  /** `part_one`'s count on parsed rows and columns. */
  function VisibleCount(rows: Grid, columns: Grid): nat
  {
    |RowMarks(rows, |rows|) + ColumnMarks(columns, |columns|)|
  }

  /** A cell is marked by the row pass exactly when it is visible in its
      row. */
  lemma RowMarked(rows: Grid, n: nat, r: nat, c: nat)
    requires n <= |rows|
    ensures (r, c) in RowMarks(rows, n) <==> r < n && c < |rows[r]| && IsVisible(rows[r], c)
  {
    if r < n && c < |rows[r]| && IsVisible(rows[r], c) {
      assert (r, c) in RowMarks(rows, n);
    }
  }

  /** A cell is marked by the column pass exactly when it is visible in its
      column. */
  lemma ColumnMarked(columns: Grid, n: nat, r: nat, c: nat)
    requires n <= |columns|
    ensures (r, c) in ColumnMarks(columns, n) <==> c < n && r < |columns[c]| && IsVisible(columns[c], r)
  {
    if c < n && r < |columns[c]| && IsVisible(columns[c], r) {
      assert (r, c) in ColumnMarks(columns, n);
    }
  }

  /** The marks of one more row are those of its visible positions. */
  lemma RowMarksStep(rows: Grid, n: nat, vis: seq<nat>)
    requires n < |rows| && vis == VisibleIndices(rows[n])
    ensures RowMarks(rows, n + 1) == RowMarks(rows, n) + set m | 0 <= m < |vis| :: (n, vis[m])
  {
    VisibleUpToMeaning(rows[n], |rows[n]|);
    var added := set m | 0 <= m < |vis| :: (n, vis[m]);
    forall p: (nat, nat) ensures p in RowMarks(rows, n + 1) <==> p in RowMarks(rows, n) + added {
      RowMarked(rows, n + 1, p.0, p.1);
      RowMarked(rows, n, p.0, p.1);
      if p.0 == n && p.1 in vis {
        var m :| 0 <= m < |vis| && vis[m] == p.1;
        assert p == (n, vis[m]);
      }
    }
  }

  /** The marks of one more column are those of its visible positions. */
  lemma ColumnMarksStep(columns: Grid, n: nat, vis: seq<nat>)
    requires n < |columns| && vis == VisibleIndices(columns[n])
    ensures ColumnMarks(columns, n + 1) == ColumnMarks(columns, n) + set m | 0 <= m < |vis| :: (vis[m], n)
  {
    VisibleUpToMeaning(columns[n], |columns[n]|);
    var added := set m | 0 <= m < |vis| :: (vis[m], n);
    forall p: (nat, nat) ensures p in ColumnMarks(columns, n + 1) <==> p in ColumnMarks(columns, n) + added {
      ColumnMarked(columns, n + 1, p.0, p.1);
      ColumnMarked(columns, n, p.0, p.1);
      if p.1 == n && p.0 in vis {
        var m :| 0 <= m < |vis| && vis[m] == p.0;
        assert p == (vis[m], n);
      }
    }
  }

  /** The loops of `part_one` that fill the set of visible cells. */
  method CountVisible(rows: Grid, columns: Grid) returns (count: nat)
    ensures count == VisibleCount(rows, columns)
  {
    var visible: set<(nat, nat)> := {};
    for r := 0 to |rows|
      invariant visible == RowMarks(rows, r)
    {
      var vis := GetVisibleTrees(rows[r]);
      for m := 0 to |vis|
        invariant visible == RowMarks(rows, r) + set m' | 0 <= m' < m :: (r, vis[m'])
      {
        visible := visible + {(r, vis[m])};
      }
      RowMarksStep(rows, r, vis);
    }
    for c := 0 to |columns|
      invariant visible == RowMarks(rows, |rows|) + ColumnMarks(columns, c)
    {
      var vis := GetVisibleTrees(columns[c]);
      for m := 0 to |vis|
        invariant visible == RowMarks(rows, |rows|) + ColumnMarks(columns, c) + set m' | 0 <= m' < m :: (vis[m'], c)
      {
        visible := visible + {(vis[m], c)};
      }
      ColumnMarksStep(columns, c, vis);
    }
    count := |visible|;
  }

  /** Every row of the grid has the same width and every height is a
      digit. */
  predicate Rectangular(rows: Grid, w: nat)
  {
    forall k :: 0 <= k < |rows| ==> |rows[k]| == w && forall c :: 0 <= c < w ==> 0 <= rows[k][c] <= 9
  }

  /** The column of a rectangular grid, top to bottom. */
  function GridColumn(rows: Grid, w: nat, c: nat): seq<int>
    requires Rectangular(rows, w) && c < w
  {
    seq(|rows|, k requires 0 <= k < |rows| => rows[k][c])
  }

  /** In a rectangular grid the parsed columns are the grid's columns. */
  lemma ColumnsOfGrid(rows: Grid, w: nat)
    requires Rectangular(rows, w) && |rows| > 0
    ensures |ColumnsOf(rows)| == w
    ensures forall c :: 0 <= c < w ==> ColumnsOf(rows)[c] == GridColumn(rows, w, c)
  {
    ColumnsMeaning(rows);
    assert |rows[0]| == w;
    forall c | 0 <= c < w ensures ColumnsOf(rows)[c] == GridColumn(rows, w, c) {
      ColumnOfGrid(rows, w, c);
    }
  }

  /** A tree of a grid is visible from outside when every tree between it
      and one of the four edges is shorter. */
  predicate SeenFromOutside(rows: Grid, w: nat, r: nat, c: nat)
    requires Rectangular(rows, w) && r < |rows| && c < w
  {
    (forall k :: 0 <= k < c ==> rows[r][k] < rows[r][c]) ||
    (forall k :: c < k < w ==> rows[r][k] < rows[r][c]) ||
    (forall k :: 0 <= k < r ==> rows[k][c] < rows[r][c]) ||
    (forall k :: r < k < |rows| ==> rows[k][c] < rows[r][c])
  }

  /** On a rectangular grid part one marks exactly the trees visible from
      outside the grid. */
  lemma MarksMeaning(rows: Grid, w: nat, r: nat, c: nat)
    requires Rectangular(rows, w) && |rows| > 0
    ensures var columns := ColumnsOf(rows);
      (r, c) in RowMarks(rows, |rows|) + ColumnMarks(columns, |columns|) <==>
        r < |rows| && c < w && SeenFromOutside(rows, w, r, c)
  {
    ColumnsOfGrid(rows, w);
    var columns := ColumnsOf(rows);
    RowMarked(rows, |rows|, r, c);
    ColumnMarked(columns, |columns|, r, c);
    if r < |rows| && c < w {
      VisibleMeaning(rows[r], c);
      assert columns[c] == GridColumn(rows, w, c);
      ColumnVisible(rows, w, r, c);
    }
  }

  /** A tree is visible in its column of a rectangular grid exactly when
      every tree above it, or every tree below it, is shorter. */
  lemma ColumnVisible(rows: Grid, w: nat, r: nat, c: nat)
    requires Rectangular(rows, w) && r < |rows| && c < w
    ensures IsVisible(GridColumn(rows, w, c), r) <==>
      (forall k :: 0 <= k < r ==> rows[k][c] < rows[r][c]) || (forall k :: r < k < |rows| ==> rows[k][c] < rows[r][c])
  {
    var column := GridColumn(rows, w, c);
    VisibleMeaning(column, r);
    if (forall k :: 0 <= k < r ==> rows[k][c] < rows[r][c]) {
      assert forall j :: 0 <= j < r ==> column[j] < column[r];
    }
    if (forall k :: r < k < |rows| ==> rows[k][c] < rows[r][c]) {
      assert forall j :: r < j < |column| ==> column[j] < column[r];
    }
    if IsVisible(column, r) {
      if forall j :: 0 <= j < r ==> column[j] < column[r] {
        assert forall k :: 0 <= k < r ==> rows[k][c] < rows[r][c] by {
          forall k | 0 <= k < r ensures rows[k][c] < rows[r][c] {
            assert column[k] < column[r];
          }
        }
      } else {
        assert forall k :: r < k < |rows| ==> rows[k][c] < rows[r][c] by {
          forall k | r < k < |rows| ensures rows[k][c] < rows[r][c] {
            assert column[k] < column[r];
          }
        }
      }
    }
  }

  /** `part_one`: parse, then count the marked cells. */
  method PartOne(lines: seq<string>) returns (r: Option<nat>)
    ensures r.Some? <==> AllDigits(lines)
    ensures r.Some? ==> r.value == VisibleCount(Rows(lines), ColumnsOf(Rows(lines)))
  {
    var parsed := ParseInput(lines);
    if parsed.None? {
      return None;
    }
    var count := CountVisible(parsed.value.0, parsed.value.1);
    r := Some(count);
  }

  // ---------------------------------------------------------------
  // part_two

  /** A cell's score: its row views multiplied, then its column views
      where its column has a cell at its row index. */
  function Score(rows: Grid, columns: Grid, r: nat, c: nat): nat
    requires r < |rows| && c < |rows[r]|
  {
    RowFactor(rows, r, c) * ColumnFactor(columns, r, c)
  }

  /** The factor a cell takes from its row in the row pass. */
  function RowFactor(rows: Grid, r: nat, c: nat): nat
    requires r < |rows| && c < |rows[r]|
  {
    ViewProduct(rows[r], c)
  }

  /** The factor a cell takes from its column in the column pass. */
  function ColumnFactor(columns: Grid, r: nat, c: nat): nat
  {
    if c < |columns| && r < |columns[c]| then ViewProduct(columns[c], r) else 1
  }

  /** The product of a tree's two viewing distances along one line. */
  function ViewProduct(trees: seq<int>, i: nat): nat
    requires i < |trees|
  {
    ViewLeft(trees, i) * ViewRight(trees, i)
  }

  /** On a rectangular grid a tree's column factor is the product of its
      viewing distances up and down, so that its score is the product of
      all four. */
  lemma ScoreOnGrid(rows: Grid, w: nat, r: nat, c: nat)
    requires Rectangular(rows, w) && r < |rows| && c < w
    ensures ColumnFactor(ColumnsOf(rows), r, c) == ViewLeft(GridColumn(rows, w, c), r) * ViewRight(GridColumn(rows, w, c), r)
  {
    ColumnsOfGrid(rows, w);
    assert ColumnsOf(rows)[c] == GridColumn(rows, w, c);
  }

  /** A cell of the grid, as a key of the score map. */
  predicate Cell(rows: Grid, p: (nat, nat))
  {
    p.0 < |rows| && p.1 < |rows[p.0]|
  }

  /** The row pass: every cell of the first `n` rows scored by its row
      views. */
  method ScoreRows(rows: Grid) returns (scores: map<(nat, nat), nat>)
    ensures forall p: (nat, nat) :: p in scores <==> Cell(rows, p)
    ensures forall p: (nat, nat) :: p in scores ==> Cell(rows, p) && scores[p] == RowFactor(rows, p.0, p.1)
  {
    scores := map[];
    for r := 0 to |rows|
      invariant forall p: (nat, nat) :: p in scores <==> Cell(rows, p) && p.0 < r
      invariant forall p: (nat, nat) :: p in scores ==> Cell(rows, p) && scores[p] == RowFactor(rows, p.0, p.1)
    {
      var views := GetVisibleTreesWithViews(rows[r]);
      for m := 0 to |views|
        invariant forall p: (nat, nat) :: p in scores <==> Cell(rows, p) && (p.0 < r || (p.0 == r && p.1 < m))
        invariant forall p: (nat, nat) :: p in scores ==> Cell(rows, p) && scores[p] == RowFactor(rows, p.0, p.1)
      {
        var (c, viewLeft, viewRight) := views[m];
        scores := scores[(r, c) := viewLeft * viewRight];
      }
    }
  }

  /** The cells the column pass has reached: the columns before `c`, and
      the first `m` positions of column `c`. */
  predicate Reached(p: (nat, nat), c: nat, m: nat)
  {
    p.1 < c || (p.1 == c && p.0 < m)
  }

  /** The column pass: every existing cell multiplied by its column
      views. */
  method ScoreColumns(columns: Grid, rowScores: map<(nat, nat), nat>) returns (scores: map<(nat, nat), nat>)
    ensures scores.Keys == rowScores.Keys
    ensures forall p :: p in scores ==> scores[p] == rowScores[p] * ColumnFactor(columns, p.0, p.1)
  {
    scores := rowScores;
    for c := 0 to |columns|
      invariant scores.Keys == rowScores.Keys
      invariant ColumnPassed(scores, rowScores, columns, c, 0)
    {
      scores := ScoreColumn(columns, c, rowScores, scores);
    }
    forall p | p in scores
      ensures scores[p] == rowScores[p] * ColumnFactor(columns, p.0, p.1)
    {
      if !Reached(p, |columns|, 0) {
        assert ColumnFactor(columns, p.0, p.1) == 1;
      }
    }
  }

  /** One column of the column pass: the cells of column `c` that are in
      the map take their column factor, and nothing else changes. */
  method ScoreColumn(columns: Grid, c: nat, rowScores: map<(nat, nat), nat>, before: map<(nat, nat), nat>)
    returns (scores: map<(nat, nat), nat>)
    requires c < |columns| && before.Keys == rowScores.Keys
    requires ColumnPassed(before, rowScores, columns, c, 0)
    ensures scores.Keys == rowScores.Keys
    ensures ColumnPassed(scores, rowScores, columns, c + 1, 0)
  {
    scores := before;
    var views := GetVisibleTreesWithViews(columns[c]);
    for m := 0 to |views|
      invariant scores.Keys == rowScores.Keys
      invariant ColumnPassed(scores, rowScores, columns, c, m)
    {
      var (r, viewLeft, viewRight) := views[m];
      var factor := viewLeft * viewRight;
      assert r == m && factor == ViewProduct(columns[c], r) == ColumnFactor(columns, r, c);
      if (r, c) in scores {
        scores := scores[(r, c) := scores[(r, c)] * factor];
      }
    }
    assert forall p: (nat, nat) :: Reached(p, c + 1, 0) && !Reached(p, c, |views|) ==> ColumnFactor(columns, p.0, p.1) == 1;
  }

  /** The column pass has multiplied exactly the reached cells by their
      column factor. */
  predicate ColumnPassed(scores: map<(nat, nat), nat>, rowScores: map<(nat, nat), nat>, columns: Grid, c: nat, m: nat)
    requires scores.Keys == rowScores.Keys
  {
    forall p :: p in scores ==> scores[p] == if Reached(p, c, m) then Scaled(rowScores[p], ColumnFactor(columns, p.0, p.1)) else rowScores[p]
  }

  /** A score multiplied by a factor; kept apart so that the pass's
      invariant does not expose a product to the solver. */
  function Scaled(x: nat, f: nat): nat
  {
    x * f
  }

  /** The largest value of the score map; `None` when it is empty (a panic
      in the source). */
  method MaxScore(scores: map<(nat, nat), nat>) returns (best: Option<nat>)
    ensures best.Some? <==> |scores| > 0
    ensures best.Some? ==> (exists p :: p in scores && scores[p] == best.value) && forall p :: p in scores ==> scores[p] <= best.value
  {
    var left := scores.Keys;
    best := None;
    while left != {}
      invariant left <= scores.Keys
      invariant best.None? <==> left == scores.Keys
      invariant best.Some? ==> exists p :: p in scores && scores[p] == best.value
      invariant best.Some? ==> forall p :: p in scores && p !in left ==> scores[p] <= best.value
      decreases |left|
    {
      var p :| p in left;
      if best.None? || scores[p] > best.value {
        best := Some(scores[p]);
      }
      left := left - {p};
    }
    if best.None? {
      assert scores.Keys == {};
    }
  }

  /** `part_two` on parsed rows and columns: the best score over the
      cells, `None` when there are none. */
  method BestScore(rows: Grid, columns: Grid) returns (best: Option<nat>)
    ensures best.Some? <==> exists p :: Cell(rows, p)
    ensures best.Some? ==> exists p :: Cell(rows, p) && Score(rows, columns, p.0, p.1) == best.value
    ensures best.Some? ==> forall p :: Cell(rows, p) ==> Score(rows, columns, p.0, p.1) <= best.value
  {
    var rowScores := ScoreRows(rows);
    var scores := ScoreColumns(columns, rowScores);
    best := MaxScore(scores);
    assert forall p :: p in scores <==> Cell(rows, p);
    assert forall p :: p in scores ==> scores[p] == Score(rows, columns, p.0, p.1);
  }

  /** `part_two`: parse, then the best score; `None` where the source
      panics (a character that is not a digit, or no tree at all). */
  method PartTwo(lines: seq<string>) returns (r: Option<nat>)
    ensures r.Some? <==> AllDigits(lines) && exists p :: Cell(Rows(lines), p)
    ensures r.Some? ==> exists p :: Cell(Rows(lines), p) && Score(Rows(lines), ColumnsOf(Rows(lines)), p.0, p.1) == r.value
    ensures r.Some? ==> forall p :: Cell(Rows(lines), p) ==> Score(Rows(lines), ColumnsOf(Rows(lines)), p.0, p.1) <= r.value
  {
    var parsed := ParseInput(lines);
    if parsed.None? {
      return None;
    }
    r := BestScore(parsed.value.0, parsed.value.1);
  }
}

/** Day 1 of 2021, "Sonar Sweep": count how often a depth measurement
    is larger than the one before it, first for single measurements and
    then for the sums of three-measurement sliding windows. */
module SonarSweep {
  import opened Wrappers
  import opened Strings

  /** `input::get_lines_of_type::<u32>`: every line read as a depth, lines
      that do not parse skipped. */
  function ReadDepths(input: string): seq<nat>
  {
    ParseEach(Lines(input), ParseU32)
  }

  /** `windows(2).filter(|w| w[1] > w[0]).count()`: the number of
      measurements larger than the one before. There is one comparison
      for each neighbouring pair, so at most `|nums| - 1`. */
  function Increases(nums: seq<nat>): (r: nat)
    ensures r <= if |nums| == 0 then 0 else |nums| - 1
    decreases |nums|
  {
    if |nums| < 2 then 0
    else (if nums[1] > nums[0] then 1 else 0) + Increases(nums[1..])
  }

  /** The number of positions `i` whose measurement `gap` places later is
      larger: the comparison of each measurement with one further on. */
  function GapIncreases(nums: seq<nat>, gap: nat): (r: nat)
    ensures r <= if |nums| <= gap then 0 else |nums| - gap
    decreases |nums|
  {
    if |nums| <= gap then 0
    else (if nums[gap] > nums[0] then 1 else 0) + GapIncreases(nums[1..], gap)
  }

  /** `windows(3).map(|w| w.iter().sum())`: the sum of each run of three
      neighbouring measurements, in order. */
  function WindowSums(nums: seq<nat>): (r: seq<nat>)
    ensures |r| == if |nums| < 3 then 0 else |nums| - 2
    ensures forall i :: 0 <= i < |r| ==> r[i] == nums[i] + nums[i + 1] + nums[i + 2]
    decreases |nums|
  {
    if |nums| < 3 then []
    else
      var rest := WindowSums(nums[1..]);
      [nums[0] + nums[1] + nums[2]] + rest
  }

  /** `part_one`. */
  function PartOne(input: string): nat
  {
    Increases(ReadDepths(input))
  }

  /** `part_two`. */
  function PartTwo(input: string): nat
  {
    Increases(WindowSums(ReadDepths(input)))
  }

  // ---------------------------------------------------------------
  // Properties

  /** Counting neighbour increases is comparing each measurement with the
      next one. */
  lemma {:induction false} IncreasesIsGapOne(nums: seq<nat>)
    ensures Increases(nums) == GapIncreases(nums, 1)
    decreases |nums|
  {
    if |nums| >= 2 {
      IncreasesIsGapOne(nums[1..]);
    }
  }

  /** Two neighbouring windows share their middle two measurements, so the
      later sum is larger exactly when the measurement it gains is larger
      than the one it loses: the increases of the window sums are the
      increases over a gap of three. */
  lemma {:induction false} WindowIncreases(nums: seq<nat>)
    ensures Increases(WindowSums(nums)) == GapIncreases(nums, 3)
    decreases |nums|
  {
    if |nums| >= 4 {
      var w := WindowSums(nums);
      var rest := nums[1..];
      WindowIncreases(rest);
      assert w[1..] == WindowSums(rest);
      assert w[1] > w[0] <==> nums[3] > nums[0];
    }
  }

  /** Every neighbouring pair of a strictly rising list counts, so the
      bound `|nums| - 1` is reached. */
  lemma {:induction false} RisingCountsAll(nums: seq<nat>)
    requires |nums| > 0
    requires forall i :: 0 <= i < |nums| - 1 ==> nums[i] < nums[i + 1]
    ensures Increases(nums) == |nums| - 1
    decreases |nums|
  {
    if |nums| >= 2 {
      var rest := nums[1..];
      forall i | 0 <= i < |rest| - 1 ensures rest[i] < rest[i + 1] {
        assert rest[i] == nums[i + 1] && rest[i + 1] == nums[i + 2];
      }
      RisingCountsAll(rest);
    }
  }

  /** A list that never rises has no increase. */
  lemma {:induction false} FallingCountsNone(nums: seq<nat>)
    requires forall i :: 0 <= i < |nums| - 1 ==> nums[i + 1] <= nums[i]
    ensures Increases(nums) == 0
    decreases |nums|
  {
    if |nums| >= 2 {
      var rest := nums[1..];
      forall i | 0 <= i < |rest| - 1 ensures rest[i + 1] <= rest[i] {
        assert rest[i] == nums[i + 1] && rest[i + 1] == nums[i + 2];
      }
      FallingCountsNone(rest);
    }
  }

  /** The answers are bounded by the number of comparisons:
      `max(0, n - 1)` for single measurements and `max(0, n - 3)` for the
      window sums. */
  lemma AnswerBounds(input: string)
    ensures var n := |ReadDepths(input)|;
      PartOne(input) <= (if n == 0 then 0 else n - 1) &&
      PartTwo(input) <= (if n < 3 then 0 else n - 3)
  {
    WindowIncreases(ReadDepths(input));
  }

  /** A line that is not a `u32` changes neither answer. */
  lemma UnreadableLineSkipped(a: seq<string>, line: string, b: seq<string>)
    requires ParseU32(line).None?
    ensures Increases(ParseEach(a + [line] + b, ParseU32)) == Increases(ParseEach(a + b, ParseU32))
    ensures Increases(WindowSums(ParseEach(a + [line] + b, ParseU32))) == Increases(WindowSums(ParseEach(a + b, ParseU32)))
  {
    ParseEachSkips(a, line, b, ParseU32);
  }

  // ---------------------------------------------------------------
  // The sample

  /** Depths written one a line, each line ended by a newline, read back
      as those depths. */
  lemma ReadWritten(nums: seq<nat>)
    requires |nums| > 0 && forall k :: 0 <= k < |nums| ==> nums[k] < U32Limit
    ensures ReadDepths(Join(WriteNats(nums), "\n") + "\n") == nums
  {
    var ls := WriteNats(nums);
    forall i | 0 <= i < |ls| ensures '\n' !in ls[i] && ParseU32(ls[i]) == Some(nums[i]) {
      ParseNatToString(nums[i]);
      assert forall c :: c in ls[i] ==> IsDigit(c);
    }
    LinesOfText(ls);
    ParseEachAll(ls, ParseU32);
  }

  const SampleDepths: seq<nat> := [199, 200, 208, 210, 200, 207, 240, 269, 260, 263]

  /** "199\n200\n208\n210\n200\n207\n240\n269\n260\n263\n". */
  const Sample: string := Join(WriteNats(SampleDepths), "\n") + "\n"

  lemma SampleCounts()
    ensures Increases(SampleDepths) == 7 && GapIncreases(SampleDepths, 3) == 5
  {
  }

  /** The source's sample answers, 7 and 5. */
  lemma SampleAnswers()
    ensures PartOne(Sample) == 7 && PartTwo(Sample) == 5
  {
    ReadWritten(SampleDepths);
    SampleCounts();
    WindowIncreases(SampleDepths);
  }
}

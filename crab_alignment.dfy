/** Day 7 of 2021, "The Treachery of Whales": crabs at the given horizontal
    positions must all move to one position; find the cheapest one, where a
    move of n steps costs n (part one) or 1 + 2 + ... + n (part two). */
module CrabAlignment {
  import opened Wrappers
  import opened Strings

  /** `read_input`: the trimmed input split on commas. */
  function ReadInput(input: string): Option<seq<nat>>
  {
    ParseNats(SplitOn(Trim(input), ","), U32Limit)
  }

  /** `series_sum`: the closed form of 1 + 2 + ... + n. */
  function SeriesSum(n: nat): nat
  {
    (n + 1) * n / 2
  }

  /** 1 + 2 + ... + n, added up one step at a time. */
  function Triangle(n: nat): nat
  {
    if n == 0 then 0 else Triangle(n - 1) + n
  }

  lemma {:induction false} SeriesSumIsTriangle(n: nat)
    ensures SeriesSum(n) == Triangle(n)
  {
    if n > 0 {
      SeriesSumIsTriangle(n - 1);
      assert (n + 1) * n == (n - 1 + 1) * (n - 1) + 2 * n;
    }
  }

  /** The source's examples: 1, 3, 6, 10. */
  lemma SeriesSumExamples()
    ensures SeriesSum(1) == 1 && SeriesSum(2) == 3 && SeriesSum(3) == 6 && SeriesSum(4) == 10
  {
  }

  /** A longer move never costs less, and a move of n costs at least n. */
  lemma {:induction false} SeriesSumMonotone(a: nat, b: nat)
    requires a <= b
    ensures a <= SeriesSum(a) <= SeriesSum(b)
    decreases b
  {
    SeriesSumIsTriangle(a);
    SeriesSumIsTriangle(b);
    TriangleMonotone(a, b);
  }

  lemma {:induction false} TriangleMonotone(a: nat, b: nat)
    requires a <= b
    ensures a <= Triangle(a) <= Triangle(b)
    decreases b
  {
    if a < b {
      TriangleMonotone(a, b - 1);
    } else if a > 0 {
      TriangleMonotone(a - 1, a - 1);
    }
  }

  /** `u32::abs_diff`. */
  function AbsDiff(a: nat, b: nat): nat
  {
    if a <= b then b - a else a - b
  }

  /** `linear_distance`: the fuel for all crabs to reach `i`, one unit a step. */
  function LinearDistance(i: nat, nums: seq<nat>): nat
    decreases |nums|
  {
    if |nums| == 0 then 0 else AbsDiff(nums[0], i) + LinearDistance(i, nums[1..])
  }

  /** `series_sum_distance`: the fuel when each further step costs one more. */
  function SeriesSumDistance(i: nat, nums: seq<nat>): nat
    decreases |nums|
  {
    if |nums| == 0 then 0 else SeriesSum(AbsDiff(nums[0], i)) + SeriesSumDistance(i, nums[1..])
  }

  /** No fuel is needed exactly when every crab is already at `i`. */
  lemma {:induction false} LinearDistanceZero(i: nat, nums: seq<nat>)
    ensures LinearDistance(i, nums) == 0 <==> forall k :: 0 <= k < |nums| ==> nums[k] == i
    decreases |nums|
  {
    if |nums| > 0 {
      var rest := nums[1..];
      LinearDistanceZero(i, rest);
      if LinearDistance(i, nums) == 0 {
        forall k | 0 <= k < |nums| ensures nums[k] == i {
          if k > 0 {
            assert nums[k] == rest[k - 1];
          }
        }
      } else if nums[0] == i {
        var k :| 0 <= k < |rest| && rest[k] != i;
        assert nums[k + 1] == rest[k];
      }
    }
  }

  /** The growing cost of part two is never below the linear cost. */
  lemma {:induction false} SeriesCostDominates(i: nat, nums: seq<nat>)
    ensures LinearDistance(i, nums) <= SeriesSumDistance(i, nums)
    decreases |nums|
  {
    if |nums| > 0 {
      SeriesSumMonotone(AbsDiff(nums[0], i), AbsDiff(nums[0], i));
      SeriesCostDominates(i, nums[1..]);
    }
  }

  /** The leftmost crab, as `nums.iter().min()`. */
  function MinOf(nums: seq<nat>): (m: nat)
    requires |nums| > 0
    ensures m in nums && forall k :: 0 <= k < |nums| ==> m <= nums[k]
    decreases |nums|
  {
    if |nums| == 1 then nums[0]
    else
      var m := MinOf(nums[1..]);
      assert forall k :: 1 <= k < |nums| ==> nums[k] == nums[1..][k - 1];
      if nums[0] <= m then nums[0] else m
  }

  /** The rightmost crab, as `nums.iter().max()`. */
  function MaxOf(nums: seq<nat>): (m: nat)
    requires |nums| > 0
    ensures m in nums && forall k :: 0 <= k < |nums| ==> nums[k] <= m
    decreases |nums|
  {
    if |nums| == 1 then nums[0]
    else
      var m := MaxOf(nums[1..]);
      assert forall k :: 1 <= k < |nums| ==> nums[k] == nums[1..][k - 1];
      if nums[0] >= m then nums[0] else m
  }

  /** The cheapest cost over the positions `lo..=hi`. */
  function MinCostOver(lo: nat, hi: nat, nums: seq<nat>, cost: (nat, seq<nat>) -> nat): (r: nat)
    requires lo <= hi
    ensures forall i :: lo <= i <= hi ==> r <= cost(i, nums)
    decreases hi - lo
  {
    if lo == hi then cost(lo, nums)
    else
      var rest := MinCostOver(lo + 1, hi, nums, cost);
      if cost(lo, nums) <= rest then cost(lo, nums) else rest
  }

  /** The cheapest cost is the cost of some position in the range. */
  lemma {:induction false} MinCostAttained(lo: nat, hi: nat, nums: seq<nat>, cost: (nat, seq<nat>) -> nat)
    requires lo <= hi
    ensures exists i :: lo <= i <= hi && cost(i, nums) == MinCostOver(lo, hi, nums, cost)
    decreases hi - lo
  {
    if lo < hi {
      MinCostAttained(lo + 1, hi, nums, cost);
    } else {
      assert cost(lo, nums) == MinCostOver(lo, hi, nums, cost);
    }
  }

  /** `find_min_cost`: the least cost of moving every crab to one position
      between the leftmost and the rightmost crab. The source panics on an
      empty list. */
  function FindMinCost(nums: seq<nat>, cost: (nat, seq<nat>) -> nat): nat
    requires |nums| > 0
  {
    MinCostOver(MinOf(nums), MaxOf(nums), nums, cost)
  }

  /** `find_min_cost` returns the cost of a position in the searched range,
      and no position in that range is cheaper. */
  lemma FindMinCostIsMinimum(nums: seq<nat>, cost: (nat, seq<nat>) -> nat)
    requires |nums| > 0
    ensures exists i :: MinOf(nums) <= i <= MaxOf(nums) && cost(i, nums) == FindMinCost(nums, cost)
    ensures forall i :: MinOf(nums) <= i <= MaxOf(nums) ==> FindMinCost(nums, cost) <= cost(i, nums)
  {
    MinCostAttained(MinOf(nums), MaxOf(nums), nums, cost);
  }

  /** Every crab at or right of `m` and `i` left of `m`: moving to `i` costs
      at least as much as moving to `m`, under either cost. */
  lemma {:induction false} CostsBelow(i: nat, m: nat, nums: seq<nat>)
    requires i <= m && forall k :: 0 <= k < |nums| ==> m <= nums[k]
    ensures LinearDistance(m, nums) <= LinearDistance(i, nums)
    ensures SeriesSumDistance(m, nums) <= SeriesSumDistance(i, nums)
    decreases |nums|
  {
    if |nums| > 0 {
      var rest := nums[1..];
      forall k | 0 <= k < |rest| ensures m <= rest[k] {
        assert rest[k] == nums[k + 1];
      }
      CostsBelow(i, m, rest);
      SeriesSumMonotone(AbsDiff(nums[0], m), AbsDiff(nums[0], i));
    }
  }

  /** The mirror image: every crab at or left of `m` and `i` right of it. */
  lemma {:induction false} CostsAbove(i: nat, m: nat, nums: seq<nat>)
    requires m <= i && forall k :: 0 <= k < |nums| ==> nums[k] <= m
    ensures LinearDistance(m, nums) <= LinearDistance(i, nums)
    ensures SeriesSumDistance(m, nums) <= SeriesSumDistance(i, nums)
    decreases |nums|
  {
    if |nums| > 0 {
      var rest := nums[1..];
      forall k | 0 <= k < |rest| ensures rest[k] <= m {
        assert rest[k] == nums[k + 1];
      }
      CostsAbove(i, m, rest);
      SeriesSumMonotone(AbsDiff(nums[0], m), AbsDiff(nums[0], i));
    }
  }

  /** Searching only between the leftmost and the rightmost crab loses
      nothing: the result is the cheapest over every position. */
  lemma FindMinCostIsGlobal(nums: seq<nat>, i: nat)
    requires |nums| > 0
    ensures FindMinCost(nums, LinearDistance) <= LinearDistance(i, nums)
    ensures FindMinCost(nums, SeriesSumDistance) <= SeriesSumDistance(i, nums)
  {
    var lo, hi := MinOf(nums), MaxOf(nums);
    FindMinCostIsMinimum(nums, LinearDistance);
    FindMinCostIsMinimum(nums, SeriesSumDistance);
    if i < lo {
      CostsBelow(i, lo, nums);
    } else if i > hi {
      CostsAbove(i, hi, nums);
    }
  }

  /** Twice 1 + 2 + ... + n is n² + n. */
  lemma {:induction false} TwiceSeriesSum(n: nat)
    ensures 2 * SeriesSum(n) == n * n + n
  {
    SeriesSumIsTriangle(n);
    TwiceTriangle(n);
  }

  lemma {:induction false} TwiceTriangle(n: nat)
    ensures 2 * Triangle(n) == n * n + n
  {
    if n > 0 {
      TwiceTriangle(n - 1);
      assert (n - 1) * (n - 1) == n * n - 2 * n + 1;
    }
  }

  /** The sum of the squared distances to `i`. */
  function SquareDistance(i: nat, nums: seq<nat>): nat
    decreases |nums|
  {
    if |nums| == 0 then 0 else AbsDiff(nums[0], i) * AbsDiff(nums[0], i) + SquareDistance(i, nums[1..])
  }

  /** Part two's cost is half the squared distances plus half the linear
      cost: the step-by-step sum in closed form. */
  lemma {:induction false} SeriesSumDistanceClosed(i: nat, nums: seq<nat>)
    ensures 2 * SeriesSumDistance(i, nums) == SquareDistance(i, nums) + LinearDistance(i, nums)
    decreases |nums|
  {
    if |nums| > 0 {
      TwiceSeriesSum(AbsDiff(nums[0], i));
      SeriesSumDistanceClosed(i, nums[1..]);
    }
  }

  /** (c - i)² written out. */
  lemma SquareOfDiff(c: nat, i: nat)
    ensures AbsDiff(c, i) * AbsDiff(c, i) + 2 * (i * c) == c * c + i * i
  {
    if c <= i {
      assert (i - c) * (i - c) == i * i - 2 * (i * c) + c * c;
    } else {
      assert (c - i) * (c - i) == c * c - 2 * (i * c) + i * i;
    }
  }

  /** The costs of a concatenation are those of the parts. */
  lemma {:induction false} CostsAppend(i: nat, a: seq<nat>, b: seq<nat>)
    ensures LinearDistance(i, a + b) == LinearDistance(i, a) + LinearDistance(i, b)
    ensures SquareDistance(i, a + b) == SquareDistance(i, a) + SquareDistance(i, b)
    decreases |a|
  {
    if |a| > 0 {
      assert (a + b)[1..] == a[1..] + b;
      CostsAppend(i, a[1..], b);
    } else {
      assert a + b == b;
    }
  }

  /** Two crabs cost at least their distance apart, wherever they meet. */
  lemma PairCosts(i: nat, p: seq<nat>)
    requires |p| == 2
    ensures LinearDistance(i, p) >= AbsDiff(p[0], p[1])
    ensures SquareDistance(i, p) == AbsDiff(p[0], i) * AbsDiff(p[0], i) + AbsDiff(p[1], i) * AbsDiff(p[1], i)
  {
    var q := p[1..];
    assert q[1..] == [];
    assert SquareDistance(i, q) == AbsDiff(q[0], i) * AbsDiff(q[0], i);
  }

  /** `part_one`, `None` where the source panics on a piece that is not a
      number. */
  function PartOne(input: string): (r: Option<nat>)
    ensures r.Some? <==> ReadInput(input).Some?
  {
    match ReadInput(input)
    case None => None
    case Some(nums) =>
      if |nums| == 0 then None else Some(FindMinCost(nums, LinearDistance))
  }

  /** `part_two`, likewise. */
  function PartTwo(input: string): (r: Option<nat>)
    ensures r.Some? <==> ReadInput(input).Some?
  {
    match ReadInput(input)
    case None => None
    case Some(nums) =>
      if |nums| == 0 then None else Some(FindMinCost(nums, SeriesSumDistance))
  }

  /** Part two's answer is never below part one's. */
  lemma PartTwoAtLeastPartOne(input: string)
    requires PartOne(input).Some?
    ensures PartOne(input).value <= PartTwo(input).value
  {
    var nums := ReadInput(input).value;
    FindMinCostIsMinimum(nums, SeriesSumDistance);
    var i :| MinOf(nums) <= i <= MaxOf(nums) && SeriesSumDistance(i, nums) == FindMinCost(nums, SeriesSumDistance);
    FindMinCostIsGlobal(nums, i);
    SeriesCostDominates(i, nums);
  }

  // ---------------------------------------------------------------
  // The sample

  const SamplePieces: seq<string> := ["16", "1", "2", "0", "4", "2", "7", "1", "2", "14"]
  const SampleNums: seq<nat> := [16, 1, 2, 0, 4, 2, 7, 1, 2, 14]

  /** "16,1,2,0,4,2,7,1,2,14\n". */
  const Sample: string := Join(SamplePieces, ",") + "\n"

  /** `u32` numbers written out and joined by commas, with a newline after
      them, read back as those numbers. */
  lemma ReadWritten(nums: seq<nat>, pieces: seq<string>)
    requires |nums| == |pieces| > 0
    requires forall k :: 0 <= k < |nums| ==> pieces[k] == NatToString(nums[k]) && nums[k] < U32Limit
    ensures ReadInput(Join(pieces, ",") + "\n") == Some(nums)
  {
    var body := Join(pieces, ",");
    JoinedNumbers(pieces, ',');
    TrimLine(body);
    WrittenNumbersRead(nums, pieces, ',', U32Limit);
  }

  lemma SampleReads()
    ensures ReadInput(Sample) == Some(SampleNums)
  {
    assert forall k :: 0 <= k < |SampleNums| ==> SamplePieces[k] == NatToString(SampleNums[k]) && SampleNums[k] < U32Limit;
    ReadWritten(SampleNums, SamplePieces);
  }

  /** The sample's crabs, position by position. */
  predicate IsSample(nums: seq<nat>)
  {
    |nums| == 10 && nums[0] == 16 && nums[1] == 1 && nums[2] == 2 && nums[3] == 0 && nums[4] == 4
    && nums[5] == 2 && nums[6] == 7 && nums[7] == 1 && nums[8] == 2 && nums[9] == 14
  }

  lemma SampleNumsAre()
    ensures IsSample(SampleNums)
  {
  }

  /** Pairing the crabs (16, 1), (2, 0), (4, 2), (7, 1), (2, 14): each pair
      costs at least its spread, 37 in all, wherever they meet. */
  lemma SampleLinearBound(nums: seq<nat>, i: nat)
    requires IsSample(nums)
    ensures LinearDistance(i, nums) >= 37
    ensures SquareDistance(i, nums) + 98 * i == 10 * (i * i) + 531
  {
    var p1, p2, p3, p4, p5 := nums[..2], nums[2..4], nums[4..6], nums[6..8], nums[8..];
    assert nums == p1 + p2 + p3 + p4 + p5;
    PairCosts(i, p1);
    PairCosts(i, p2);
    PairCosts(i, p3);
    PairCosts(i, p4);
    PairCosts(i, p5);
    CostsAppend(i, p1, p2);
    CostsAppend(i, p1 + p2, p3);
    CostsAppend(i, p1 + p2 + p3, p4);
    CostsAppend(i, p1 + p2 + p3 + p4, p5);
    forall k | 0 <= k < 10 ensures AbsDiff(nums[k], i) * AbsDiff(nums[k], i) + 2 * (i * nums[k]) == nums[k] * nums[k] + i * i {
      SquareOfDiff(nums[k], i);
    }
  }

  /** 10i² - 98i + 232 = (i - 4)(10i - 58) is never negative on whole
      numbers other than 5. */
  lemma QuadraticBound(i: nat)
    requires i != 5
    ensures 10 * (i * i) + 531 >= 299 + 98 * i
  {
    if i <= 4 {
      assert (4 - i) * (58 - 10 * i) >= 0;
      assert (4 - i) * (58 - 10 * i) == 10 * (i * i) - 98 * i + 232;
    } else {
      assert (i - 4) * (10 * i - 58) >= 0;
      assert (i - 4) * (10 * i - 58) == 10 * (i * i) - 98 * i + 232;
    }
  }

  /** Position 2 costs 37 in part one, position 5 costs 168 in part two,
      and no position costs less. */
  lemma SampleCosts(nums: seq<nat>)
    requires IsSample(nums)
    ensures LinearDistance(2, nums) == 37 && SeriesSumDistance(5, nums) == 168
    ensures forall i :: 37 <= LinearDistance(i, nums)
    ensures forall i :: 168 <= SeriesSumDistance(i, nums)
  {
    SampleAt(nums);
    forall i: nat ensures 37 <= LinearDistance(i, nums) && 168 <= SeriesSumDistance(i, nums) {
      SampleLinearBound(nums, i);
      SeriesSumDistanceClosed(i, nums);
      if i != 5 {
        QuadraticBound(i);
      }
    }
    SeriesSumDistanceClosed(5, nums);
    SampleLinearBound(nums, 5);
  }

  /** The costs at positions 2 and 5, added up. */
  lemma SampleAt(nums: seq<nat>)
    requires IsSample(nums)
    ensures LinearDistance(2, nums) == 37 && LinearDistance(5, nums) == 45
  {
    LinearOfTen(2, nums);
    LinearOfTen(5, nums);
  }

  /** Two crabs cost their two distances to `i`. */
  lemma PairLinear(i: nat, p: seq<nat>)
    requires |p| == 2
    ensures LinearDistance(i, p) == AbsDiff(p[0], i) + AbsDiff(p[1], i)
  {
    assert p[1..][1..] == [];
  }

  /** Ten crabs cost the sum of their ten distances to `i`. */
  lemma LinearOfTen(i: nat, nums: seq<nat>)
    requires |nums| == 10
    ensures LinearDistance(i, nums) == AbsDiff(nums[0], i) + AbsDiff(nums[1], i) + AbsDiff(nums[2], i)
      + AbsDiff(nums[3], i) + AbsDiff(nums[4], i) + AbsDiff(nums[5], i) + AbsDiff(nums[6], i)
      + AbsDiff(nums[7], i) + AbsDiff(nums[8], i) + AbsDiff(nums[9], i)
  {
    var p1, p2, p3, p4, p5 := nums[..2], nums[2..4], nums[4..6], nums[6..8], nums[8..];
    assert nums == p1 + p2 + p3 + p4 + p5;
    PairLinear(i, p1);
    PairLinear(i, p2);
    PairLinear(i, p3);
    PairLinear(i, p4);
    PairLinear(i, p5);
    CostsAppend(i, p1, p2);
    CostsAppend(i, p1 + p2, p3);
    CostsAppend(i, p1 + p2 + p3, p4);
    CostsAppend(i, p1 + p2 + p3 + p4, p5);
  }

  /** A cost reached inside the searched range that no position beats is
      what `find_min_cost` returns. */
  lemma FindMinCostIs(nums: seq<nat>, cost: (nat, seq<nat>) -> nat, j: nat, v: nat)
    requires |nums| > 0 && MinOf(nums) <= j <= MaxOf(nums) && cost(j, nums) == v
    requires forall i :: v <= cost(i, nums)
    ensures FindMinCost(nums, cost) == v
  {
    FindMinCostIsMinimum(nums, cost);
  }

  /** The answers to a puzzle input that reads as the sample's crabs. */
  lemma SampleAnswersOf(input: string, nums: seq<nat>)
    requires ReadInput(input) == Some(nums) && IsSample(nums)
    ensures PartOne(input) == Some(37) && PartTwo(input) == Some(168)
  {
    SampleCosts(nums);
    assert MinOf(nums) <= nums[3] == 0 && MaxOf(nums) >= nums[0] == 16;
    FindMinCostIs(nums, LinearDistance, 2, 37);
    FindMinCostIs(nums, SeriesSumDistance, 5, 168);
  }

  /** The source's sample answers, 37 and 168. */
  lemma SampleAnswers()
    ensures PartOne(Sample) == Some(37) && PartTwo(Sample) == Some(168)
  {
    SampleReads();
    SampleNumsAre();
    SampleAnswersOf(Sample, SampleNums);
  }
}

/** Day 1 of 2022, "Calorie Counting": the input lists the calories each
    elf carries, one number a line, elves separated by blank lines; find
    the largest total, and the total of the three largest. */
module Calories {
  import opened Wrappers
  import opened Strings
  import opened Seqs

  /** One elf's total: the lines of its group, each read as a number and
      added up; `None` where the source panics on a line that is not a
      number. */
  function GroupSum(group: string): Option<nat>
  {
    match ParseNats(SplitOn(group, "\n"), U32Limit)
    case None => None
    case Some(ns) => Some(Sum(ns))
  }

  function GroupSums(groups: seq<string>): (r: Option<seq<nat>>)
    ensures r.Some? ==> |r.value| == |groups|
    decreases |groups|
  {
    if |groups| == 0 then Some([])
    else match GroupSum(groups[0])
      case None => None
      case Some(n) =>
        match GroupSums(groups[1..])
        case None => None
        case Some(ns) => Some([n] + ns)
  }

  /** `GroupSums` succeeds exactly when every group does, and then holds
      each group's total in place. */
  lemma {:induction false} GroupSumsMeaning(groups: seq<string>)
    ensures GroupSums(groups).Some? <==> forall k :: 0 <= k < |groups| ==> GroupSum(groups[k]).Some?
    ensures GroupSums(groups).Some? ==>
      forall k :: 0 <= k < |groups| ==> GroupSums(groups).value[k] == GroupSum(groups[k]).value
    decreases |groups|
  {
    if |groups| > 0 {
      var rest := groups[1..];
      GroupSumsMeaning(rest);
      if GroupSum(groups[0]).Some? && GroupSums(rest).Some? {
        forall k | 1 <= k < |groups|
          ensures GroupSums(groups).value[k] == GroupSum(groups[k]).value
        {
          assert groups[k] == rest[k - 1];
        }
      }
      if GroupSums(groups).Some? {
        forall k | 0 <= k < |groups| ensures GroupSum(groups[k]).Some? {
          if k > 0 {
            assert groups[k] == rest[k - 1];
          }
        }
      } else if GroupSum(groups[0]).Some? {
        var k :| 0 <= k < |rest| && GroupSum(rest[k]).None?;
        assert groups[k + 1] == rest[k];
      }
    }
  }

  /** `get_sums_of_substrings`: the trimmed input split on blank lines, one
      total per group. There is always at least one group. */
  function SumsOfGroups(input: string): (r: Option<seq<nat>>)
    ensures r.Some? ==> |r.value| >= 1
  {
    GroupSums(SplitOn(Trim(input), "\n\n"))
  }

  /** `max()`. */
  function Max(xs: seq<nat>): (m: nat)
    requires |xs| > 0
    ensures m in xs && forall k :: 0 <= k < |xs| ==> xs[k] <= m
    decreases |xs|
  {
    if |xs| == 1 then xs[0]
    else
      var m := Max(xs[1..]);
      assert forall k :: 1 <= k < |xs| ==> xs[k] == xs[1..][k - 1];
      if xs[0] >= m then xs[0] else m
  }

  /** `part_one`: the largest total; `None` where the source panics. */
  function PartOne(input: string): (r: Option<nat>)
    ensures r.Some? <==> SumsOfGroups(input).Some?
  {
    match SumsOfGroups(input)
    case None => None
    case Some(sums) => Some(Max(sums))
  }

  // ---------------------------------------------------------------
  // The three largest

  predicate Descending(xs: seq<nat>)
  {
    forall i, j :: 0 <= i < j < |xs| ==> xs[j] <= xs[i]
  }

  /** `x` put into a descending list at its place. */
  function Insert(x: nat, xs: seq<nat>): (r: seq<nat>)
    requires Descending(xs)
    ensures |r| == |xs| + 1 && (r[0] == x || (|xs| > 0 && r[0] == xs[0]))
    ensures Descending(r) && multiset(r) == multiset(xs) + multiset{x}
    ensures Sum(r) == x + Sum(xs)
    decreases |xs|
  {
    if |xs| == 0 || x >= xs[0] then
      assert ([x] + xs)[1..] == xs;
      [x] + xs
    else
      var rest := Insert(x, xs[1..]);
      assert xs == [xs[0]] + xs[1..];
      assert ([xs[0]] + rest)[1..] == rest;
      assert forall j :: 0 <= j < |rest| ==> rest[j] <= rest[0] <= xs[0];
      [xs[0]] + rest
  }

  /** `Itertools::sorted(..).rev()`: the totals from largest to smallest. */
  function SortDescending(xs: seq<nat>): (r: seq<nat>)
    ensures Descending(r) && multiset(r) == multiset(xs) && |r| == |xs|
    ensures Sum(r) == Sum(xs)
    decreases |xs|
  {
    if |xs| == 0 then []
    else
      assert xs == [xs[0]] + xs[1..];
      Insert(xs[0], SortDescending(xs[1..]))
  }

  /** `take(3).sum()` of the totals from largest to smallest. */
  function TopThree(xs: seq<nat>): nat
  {
    var s := SortDescending(xs);
    if |s| <= 3 then Sum(s) else Sum(s[..3])
  }

  /** With three elves or fewer, every total counts. */
  lemma TopThreeOfFew(xs: seq<nat>)
    requires |xs| <= 3
    ensures TopThree(xs) == Sum(xs)
  {
  }

  /** The largest of a descending list comes first. */
  lemma DescendingFirstIsMax(xs: seq<nat>)
    requires |xs| > 0
    ensures SortDescending(xs)[0] == Max(xs)
  {
    var s := SortDescending(xs);
    assert Max(xs) in multiset(s);
    assert s[0] in multiset(xs);
  }

  /** The three largest hold the largest, and no total left out exceeds
      one taken. */
  lemma TopThreeAtLeastMax(xs: seq<nat>)
    requires |xs| > 0
    ensures TopThree(xs) >= Max(xs)
    ensures var s := SortDescending(xs);
      forall i, j :: 0 <= i < 3 <= j < |s| ==> s[j] <= s[i]
  {
    var s := SortDescending(xs);
    DescendingFirstIsMax(xs);
    if |s| > 3 {
      var t := s[..3];
      assert t[0] == s[0];
      assert Sum(t) == t[0] + Sum(t[1..]);
    } else {
      assert Sum(s) == s[0] + Sum(s[1..]);
    }
  }

  /** `part_two`: the sum of the three largest totals. */
  function PartTwo(input: string): (r: Option<nat>)
    ensures r.Some? <==> SumsOfGroups(input).Some?
  {
    match SumsOfGroups(input)
    case None => None
    case Some(sums) => Some(TopThree(sums))
  }

  /** The three largest together carry at least as much as the largest. */
  lemma PartTwoAtLeastPartOne(input: string)
    requires PartOne(input).Some?
    ensures PartTwo(input).value >= PartOne(input).value
  {
    TopThreeAtLeastMax(SumsOfGroups(input).value);
  }

  // ---------------------------------------------------------------
  // Reading written inventories, and the sample

  /** One elf's inventory of `u32` numbers written out, one number a line,
      totals to the sum of its numbers and holds no blank line. */
  lemma ReadWrittenGroup(nums: seq<nat>, lines: seq<string>, text: string)
    requires |nums| == |lines| > 0
    requires forall i :: 0 <= i < |nums| ==> lines[i] == NatToString(nums[i]) && nums[i] < U32Limit
    requires text == Join(lines, "\n")
    ensures GroupSum(text) == Some(Sum(nums)) && Clean(text, "\n\n")
    ensures |text| > 0 && IsDigit(text[0]) && IsDigit(text[|text| - 1])
  {
    JoinedNumbers(lines, '\n');
    JoinedNumbersClean(lines, '\n');
    WrittenNumbersRead(nums, lines, '\n', U32Limit);
  }

  /** Each group's lines joined by `pat`. */
  function JoinEach(lines: seq<seq<string>>, pat: string): (r: seq<string>)
    requires forall k :: 0 <= k < |lines| ==> |lines[k]| > 0
    ensures |r| == |lines| && forall k :: 0 <= k < |lines| ==> r[k] == Join(lines[k], pat)
    decreases |lines|
  {
    if |lines| == 0 then [] else [Join(lines[0], pat)] + JoinEach(lines[1..], pat)
  }

  /** Each number of each group written in decimal. */
  function Written(groups: seq<seq<nat>>): (r: seq<seq<string>>)
    ensures |r| == |groups|
    ensures forall k :: 0 <= k < |groups| ==> |r[k]| == |groups[k]|
    ensures forall k, i :: 0 <= k < |groups| && 0 <= i < |groups[k]| ==> r[k][i] == NatToString(groups[k][i])
    decreases |groups|
  {
    if |groups| == 0 then []
    else
      var rest := Written(groups[1..]);
      var line := seq(|groups[0]|, i requires 0 <= i < |groups[0]| => NatToString(groups[0][i]));
      assert forall k :: 1 <= k < |groups| ==> groups[k] == groups[1..][k - 1];
      [line] + rest
  }

  /** Each group's total. */
  function Totals(groups: seq<seq<nat>>): (r: seq<nat>)
    ensures |r| == |groups| && forall k :: 0 <= k < |groups| ==> r[k] == Sum(groups[k])
    decreases |groups|
  {
    if |groups| == 0 then [] else [Sum(groups[0])] + Totals(groups[1..])
  }

  /** Every number fits a `u32`. */
  predicate InU32(nums: seq<nat>)
  {
    forall i :: 0 <= i < |nums| ==> nums[i] < U32Limit
  }

  /** Groups of numbers written out: each group's text totals to its sum,
      holds no blank line and starts and ends with a digit. */
  lemma GroupsWritten(groups: seq<seq<nat>>, texts: seq<string>, sums: seq<nat>)
    requires forall k :: 0 <= k < |groups| ==> |groups[k]| > 0 && InU32(groups[k])
    requires texts == JoinEach(Written(groups), "\n") && sums == Totals(groups)
    ensures forall k :: 0 <= k < |texts| ==>
        GroupSum(texts[k]) == Some(sums[k]) && Clean(texts[k], "\n\n") &&
        |texts[k]| > 0 && IsDigit(texts[k][0]) && IsDigit(texts[k][|texts[k]| - 1])
  {
    var lines := Written(groups);
    forall k | 0 <= k < |texts|
      ensures GroupSum(texts[k]) == Some(Sum(groups[k])) && Clean(texts[k], "\n\n")
      ensures |texts[k]| > 0 && IsDigit(texts[k][0]) && IsDigit(texts[k][|texts[k]| - 1])
    {
      ReadWrittenGroup(groups[k], lines[k], texts[k]);
    }
  }

  /** Groups that each total as given total to those totals in order. */
  lemma {:induction false} GroupSumsOf(texts: seq<string>, sums: seq<nat>)
    requires |texts| == |sums|
    requires forall k :: 0 <= k < |texts| ==> GroupSum(texts[k]) == Some(sums[k])
    ensures GroupSums(texts) == Some(sums)
    decreases |texts|
  {
    if |texts| > 0 {
      forall k | 0 <= k < |texts| - 1 ensures GroupSum(texts[1..][k]) == Some(sums[1..][k]) {
        assert texts[1..][k] == texts[k + 1];
      }
      GroupSumsOf(texts[1..], sums[1..]);
      assert sums == [sums[0]] + sums[1..];
    }
  }

  /** Group texts that each total as given, hold no blank line and start
      and end with a digit, joined by blank lines, read back as those
      totals. */
  lemma ReadGroupTexts(texts: seq<string>, sums: seq<nat>)
    requires |texts| == |sums| > 0
    requires forall k :: 0 <= k < |texts| ==>
      GroupSum(texts[k]) == Some(sums[k]) && Clean(texts[k], "\n\n") &&
      |texts[k]| > 0 && IsDigit(texts[k][0]) && IsDigit(texts[k][|texts[k]| - 1])
    ensures SumsOfGroups(Join(texts, "\n\n")) == Some(sums)
  {
    var t := Join(texts, "\n\n");
    JoinEnds(texts, "\n\n");
    TrimIdentity(t);
    SplitOnJoinClean(texts, "\n\n");
    GroupSumsOf(texts, sums);
  }

  /** Inventories of `u32` numbers written out, one number a line and a
      blank line between elves, read back as each elf's total. */
  lemma ReadWrittenGroups(groups: seq<seq<nat>>)
    requires |groups| > 0 && forall k :: 0 <= k < |groups| ==> |groups[k]| > 0 && InU32(groups[k])
    ensures SumsOfGroups(Join(JoinEach(Written(groups), "\n"), "\n\n")) == Some(Totals(groups))
  {
    var texts := JoinEach(Written(groups), "\n");
    GroupsWritten(groups, texts, Totals(groups));
    ReadGroupTexts(texts, Totals(groups));
  }

  const SampleGroups: seq<seq<nat>> := [[1000, 2000, 3000], [4000], [5000, 6000], [7000, 8000, 9000], [10000]]

  /** "1000\n2000\n3000\n\n4000\n\n5000\n6000\n\n7000\n8000\n9000\n\n10000". */
  const Sample: string := Join(JoinEach(Written(SampleGroups), "\n"), "\n\n")

  lemma SampleReads()
    ensures SumsOfGroups(Sample) == Some(Totals(SampleGroups))
  {
    ReadWrittenGroups(SampleGroups);
  }

  lemma SampleGroupTotals()
    ensures IsSampleSums(Totals(SampleGroups))
  {
  }

  /** The totals of the sample's elves, one by one. */
  predicate IsSampleSums(sums: seq<nat>)
  {
    |sums| == 5 && sums[0] == 6000 && sums[1] == 4000 && sums[2] == 11000 && sums[3] == 24000 && sums[4] == 10000
  }

  /** The same totals from largest to smallest. */
  predicate IsSampleSorted(d: seq<nat>)
  {
    |d| == 5 && d[0] == 24000 && d[1] == 11000 && d[2] == 10000 && d[3] == 6000 && d[4] == 4000
  }

  lemma MultisetOfFive(xs: seq<nat>)
    requires |xs| == 5
    ensures multiset(xs) == multiset{xs[0], xs[1], xs[2], xs[3], xs[4]}
  {
    assert xs == [xs[0], xs[1], xs[2], xs[3], xs[4]];
  }

  /** Two descending lists holding the same numbers are the same list. */
  lemma {:induction false} DescendingUnique(s: seq<nat>, t: seq<nat>)
    requires Descending(s) && Descending(t) && multiset(s) == multiset(t)
    ensures s == t
    decreases |s|
  {
    assert |t| == |multiset(t)| == |multiset(s)| == |s|;
    if |s| > 0 {
      DescendingHeads(s, t);
      DropHead(s);
      DropHead(t);
      DescendingUnique(s[1..], t[1..]);
    }
  }

  /** Two descending lists holding the same numbers start alike. */
  lemma DescendingHeads(s: seq<nat>, t: seq<nat>)
    requires Descending(s) && Descending(t) && multiset(s) == multiset(t) && |s| > 0
    ensures |t| > 0 && s[0] == t[0]
  {
    assert s[0] in multiset(t) && t[0] in multiset(s);
    var i :| 0 <= i < |t| && t[i] == s[0];
    var j :| 0 <= j < |s| && s[j] == t[0];
  }

  lemma DropHead(s: seq<nat>)
    requires |s| > 0
    ensures multiset(s[1..]) == multiset(s) - multiset{s[0]}
  {
    assert s == [s[0]] + s[1..];
  }

  lemma SampleSorted(sums: seq<nat>, d: seq<nat>)
    requires IsSampleSums(sums) && IsSampleSorted(d)
    ensures SortDescending(sums) == d
  {
    MultisetOfFive(sums);
    MultisetOfFive(d);
    assert multiset(d) == multiset(sums);
    assert Descending(d);
    DescendingUnique(SortDescending(sums), d);
  }

  lemma SampleTotals(sums: seq<nat>, d: seq<nat>)
    requires IsSampleSums(sums) && IsSampleSorted(d)
    ensures Max(sums) == 24000 && TopThree(sums) == 45000
  {
    SampleSorted(sums, d);
    DescendingFirstIsMax(sums);
    var t := d[..3];
    assert Sum(t) == t[0] + Sum(t[1..]);
    assert Sum(t[1..]) == t[1] + Sum(t[2..]);
    assert Sum(t[2..]) == t[2] + Sum(t[3..]);
  }

  lemma SampleAnswersOf(input: string, sums: seq<nat>, d: seq<nat>)
    requires SumsOfGroups(input) == Some(sums) && IsSampleSums(sums) && IsSampleSorted(d)
    ensures PartOne(input) == Some(24000) && PartTwo(input) == Some(45000)
  {
    SampleTotals(sums, d);
  }

  /** The source's sample answers, 24000 and 45000. */
  lemma SampleAnswers()
    ensures PartOne(Sample) == Some(24000) && PartTwo(Sample) == Some(45000)
  {
    SampleReads();
    SampleGroupTotals();
    SampleAnswersOf(Sample, Totals(SampleGroups), [24000, 11000, 10000, 6000, 4000]);
  }
}

/** Day 4 of 2022, Camp Cleanup: each line holds two ranges of section
    numbers, "a-b,c-d"; part one counts the pairs where one range holds the
    other, part two the pairs that share any section. */
module CampCleanup {
  import opened Wrappers
  import opened Strings

  /** An inclusive range of section numbers, `lo` to `hi`. */
  datatype Range = Range(lo: nat, hi: nat)

  /** `parse::<u8>()`: a decimal number below 256. */
  function ParseU8(s: string): (r: Option<nat>)
    ensures r.Some? ==> r.value < 256 && ParseNat(s) == r
  {
    match ParseNat(s)
    case Some(n) => if n < 256 then Some(n) else None
    case None => None
  }

  /** One range, "lo-hi": the first two pieces of the text split on '-';
      anything after a second '-' is never read. */
  function ParseRange(text: string): Option<Range>
  {
    var parts := SplitOn(text, "-");
    if |parts| < 2 then None
    else match (ParseU8(parts[0]), ParseU8(parts[1]))
      case (Some(lo), Some(hi)) => Some(Range(lo, hi))
      case _ => None
  }

  /** The two ranges of a trimmed line, the first two pieces split on ',';
      `None` where the source's `expect` panics. */
  function ParseLine(line: string): Option<(Range, Range)>
  {
    var parts := SplitOn(Trim(line), ",");
    if |parts| < 2 then None
    else match (ParseRange(parts[0]), ParseRange(parts[1]))
      case (Some(one), Some(two)) => Some((one, two))
      case _ => None
  }

  predicate InRange(x: nat, r: Range) { r.lo <= x <= r.hi }

  /** The sections a range covers, `HashSet::from_iter(lo..=hi)`. */
  function Sections(r: Range): set<nat>
  {
    set x: nat | x <= r.hi && InRange(x, r)
  }

  /** `overlaps`: one range holds the other, compared on the bounds. */
  predicate Contains(one: Range, two: Range)
  {
    (two.lo <= one.lo && two.hi >= one.hi) || (one.lo <= two.lo && one.hi >= two.hi)
  }

  /** Holding is symmetric in the two ranges. */
  lemma ContainsSymmetric(one: Range, two: Range)
    ensures Contains(one, two) <==> Contains(two, one)
  {
  }

  /** For non-empty ranges, the bounds test means one range's sections
      are a subset of the other's. */
  lemma ContainsMeaning(one: Range, two: Range)
    requires one.lo <= one.hi && two.lo <= two.hi
    ensures Contains(one, two) <==> Sections(one) <= Sections(two) || Sections(two) <= Sections(one)
  {
    if Sections(one) <= Sections(two) {
      assert one.lo in Sections(one) && one.hi in Sections(one);
    }
    if Sections(two) <= Sections(one) {
      assert two.lo in Sections(two) && two.hi in Sections(two);
    }
  }

  /** `overlaps_at_all`: the two ranges' section sets intersect. */
  predicate SharesSection(one: Range, two: Range)
  {
    Sections(one) * Sections(two) != {}
  }

  /** Two ranges share a section exactly when both are non-empty and the
      larger start is at most the smaller end. */
  lemma SharesSectionIff(one: Range, two: Range)
    ensures SharesSection(one, two) <==>
      one.lo <= one.hi && two.lo <= two.hi
      && (if one.lo < two.lo then two.lo else one.lo) <= (if one.hi < two.hi then one.hi else two.hi)
  {
    var lo := if one.lo < two.lo then two.lo else one.lo;
    var hi := if one.hi < two.hi then one.hi else two.hi;
    if one.lo <= one.hi && two.lo <= two.hi && lo <= hi {
      assert lo in Sections(one) * Sections(two);
    }
  }

  /** Between non-empty ranges, holding implies sharing; an empty range
      can be held without sharing anything. */
  lemma ContainsSharesSection(one: Range, two: Range)
    requires one.lo <= one.hi && two.lo <= two.hi
    ensures Contains(one, two) ==> SharesSection(one, two)
  {
    SharesSectionIff(one, two);
  }

  lemma EmptyHeldSharesNothing()
    ensures Contains(Range(5, 3), Range(4, 6)) && !SharesSection(Range(5, 3), Range(4, 6))
  {
    SharesSectionIff(Range(5, 3), Range(4, 6));
  }

  /** The number of lines the test accepts, each read by `parse` (the
      model of the line parser), or `None` if some line does
      not parse. */
  function CountLines(lines: seq<string>, parse: string -> Option<(Range, Range)>, test: (Range, Range) -> bool): (r: Option<nat>)
    ensures r.Some? ==> r.value <= |lines|
    decreases |lines|
  {
    if |lines| == 0 then Some(0)
    else
      match (parse(lines[0]), CountLines(lines[1..], parse, test))
      case (Some(p), Some(n)) => Some((if test(p.0, p.1) then 1 else 0) + n)
      case _ => None
  }

  /** The count is defined exactly when every line parses: the source's
      `filter` reaches every line, and any line that fails panics. */
  lemma {:induction false} CountLinesDefined(lines: seq<string>, parse: string -> Option<(Range, Range)>, test: (Range, Range) -> bool)
    ensures CountLines(lines, parse, test).Some? <==> forall i :: 0 <= i < |lines| ==> parse(lines[i]).Some?
    decreases |lines|
  {
    if |lines| > 0 {
      var rest := lines[1..];
      CountLinesDefined(rest, parse, test);
      if forall i :: 0 <= i < |lines| ==> parse(lines[i]).Some? {
        forall i | 0 <= i < |rest| ensures parse(rest[i]).Some? {
          assert rest[i] == lines[i + 1];
        }
      }
      if parse(lines[0]).Some? && forall i :: 0 <= i < |rest| ==> parse(rest[i]).Some? {
        forall i | 0 <= i < |lines| ensures parse(lines[i]).Some? {
          if i > 0 {
            assert lines[i] == rest[i - 1];
          }
        }
      }
    }
  }

  /** `part_one`. */
  function PartOne(input: string): Option<nat>
  {
    CountLines(Lines(input), ParseLine, Contains)
  }

  /** `part_two`. */
  function PartTwo(input: string): Option<nat>
  {
    CountLines(Lines(input), ParseLine, SharesSection)
  }

  /** When every range is non-empty, part two counts at least as many
      pairs as part one. */
  lemma {:induction false} SharingCountsMore(lines: seq<string>, parse: string -> Option<(Range, Range)>)
    requires forall i :: 0 <= i < |lines| ==> parse(lines[i]).Some?
    requires forall i :: 0 <= i < |lines| ==>
      parse(lines[i]).value.0.lo <= parse(lines[i]).value.0.hi
      && parse(lines[i]).value.1.lo <= parse(lines[i]).value.1.hi
    ensures var held, shared := CountLines(lines, parse, Contains), CountLines(lines, parse, SharesSection);
      held.Some? && shared.Some? && held.value <= shared.value
    decreases |lines|
  {
    if |lines| > 0 {
      var p := parse(lines[0]).value;
      ContainsSharesSection(p.0, p.1);
      var rest := lines[1..];
      forall i | 0 <= i < |rest| ensures parse(rest[i]).Some? {
        assert rest[i] == lines[i + 1];
      }
      SharingCountsMore(rest, parse);
    }
  }

  // ---------------------------------------------------------------
  // Writing a line back

  function RangeText(r: Range): string
  {
    NatToString(r.lo) + "-" + NatToString(r.hi)
  }

  /** The text of a line with the two ranges. */
  function PairLine(one: Range, two: Range): string
  {
    RangeText(one) + "," + RangeText(two)
  }

  lemma DigitsFree(s: string, c: char)
    requires AllDigits(s) && !IsDigit(c)
    ensures c !in s
  {
  }

  /** A range written out reads back as itself. */
  lemma RangeTextRoundTrip(r: Range)
    requires r.lo < 256 && r.hi < 256
    ensures ParseRange(RangeText(r)) == Some(r)
  {
    var a, b := NatToString(r.lo), NatToString(r.hi);
    DigitsFree(a, '-');
    DigitsFree(b, '-');
    SplitOnSep(a, "-", b);
    SplitOnSep(b, "-", "");
    ParseNatToString(r.lo);
    ParseNatToString(r.hi);
  }

  /** A written range holds no character that is neither a digit nor
      '-', and starts and ends with a digit. */
  lemma RangeTextShape(r: Range, c: char)
    requires !IsDigit(c) && c != '-'
    ensures c !in RangeText(r)
    ensures |RangeText(r)| > 0 && IsDigit(RangeText(r)[0]) && IsDigit(RangeText(r)[|RangeText(r)| - 1])
  {
    DigitsFree(NatToString(r.lo), c);
    DigitsFree(NatToString(r.hi), c);
  }

  /** A line written out reads back as its two ranges. */
  lemma PairLineRoundTrip(one: Range, two: Range)
    requires one.lo < 256 && one.hi < 256 && two.lo < 256 && two.hi < 256
    ensures ParseLine(PairLine(one, two)) == Some((one, two))
  {
    var a, b := RangeText(one), RangeText(two);
    RangeTextShape(one, ',');
    RangeTextShape(two, ',');
    TrimIdentity(a + "," + b);
    SplitOnSep(a, ",", b);
    SplitOnSep(b, ",", "");
    RangeTextRoundTrip(one);
    RangeTextRoundTrip(two);
  }

  /** The number of pairs the test accepts. */
  function CountPairs(pairs: seq<(Range, Range)>, test: (Range, Range) -> bool): nat
    decreases |pairs|
  {
    if |pairs| == 0 then 0 else (if test(pairs[0].0, pairs[0].1) then 1 else 0) + CountPairs(pairs[1..], test)
  }

  /** Lines that parse to given pairs count as those pairs do. */
  lemma {:induction false} CountOfParsed(lines: seq<string>, pairs: seq<(Range, Range)>, parse: string -> Option<(Range, Range)>, test: (Range, Range) -> bool)
    requires |lines| == |pairs|
    requires forall i :: 0 <= i < |lines| ==> parse(lines[i]) == Some(pairs[i])
    ensures CountLines(lines, parse, test) == Some(CountPairs(pairs, test))
    decreases |lines|
  {
    if |lines| > 0 {
      var rest, restPairs := lines[1..], pairs[1..];
      forall i | 0 <= i < |rest| ensures parse(rest[i]) == Some(restPairs[i]) {
        assert rest[i] == lines[i + 1];
      }
      CountOfParsed(rest, restPairs, parse, test);
      assert parse(lines[0]) == Some(pairs[0]);
    }
  }

  lemma PairLineHasNoNewline(one: Range, two: Range)
    ensures '\n' !in PairLine(one, two) && PairLine(one, two) != ""
  {
    RangeTextShape(one, '\n');
    RangeTextShape(two, '\n');
  }

  // ---------------------------------------------------------------
  // The source's sample

  const SamplePairs: seq<(Range, Range)> := [
    (Range(2, 4), Range(6, 8)), (Range(2, 3), Range(4, 5)), (Range(5, 7), Range(7, 9)),
    (Range(2, 8), Range(3, 7)), (Range(6, 6), Range(4, 6)), (Range(2, 6), Range(4, 8))]

  const SampleLines: seq<string> := ["2-4,6-8", "2-3,4-5", "5-7,7-9", "2-8,3-7", "6-6,4-6", "2-6,4-8"]

  const Sample := Join(SampleLines, "\n")

  lemma SampleLinesArePairs()
    ensures |SampleLines| == |SamplePairs|
    ensures forall i :: 0 <= i < |SampleLines| ==> SampleLines[i] == PairLine(SamplePairs[i].0, SamplePairs[i].1)
  {
  }

  lemma SampleParses()
    ensures Lines(Sample) == SampleLines
    ensures forall i :: 0 <= i < |SampleLines| ==> ParseLine(SampleLines[i]) == Some(SamplePairs[i])
  {
    SampleLinesArePairs();
    forall i | 0 <= i < |SampleLines|
      ensures ParseLine(SampleLines[i]) == Some(SamplePairs[i]) && '\n' !in SampleLines[i]
    {
      PairLineRoundTrip(SamplePairs[i].0, SamplePairs[i].1);
      PairLineHasNoNewline(SamplePairs[i].0, SamplePairs[i].1);
    }
    LinesOfJoin(SampleLines);
  }

  lemma SampleCounts()
    ensures CountPairs(SamplePairs, Contains) == 2
    ensures CountPairs(SamplePairs, SharesSection) == 4
  {
    forall i | 0 <= i < |SamplePairs| {
      SharesSectionIff(SamplePairs[i].0, SamplePairs[i].1);
    }
  }

  /** The sample has 2 pairs where one range holds the other and 4 that
      share a section. */
  lemma SampleAnswers()
    ensures PartOne(Sample) == Some(2) && PartTwo(Sample) == Some(4)
  {
    SampleParses();
    CountOfParsed(SampleLines, SamplePairs, ParseLine, Contains);
    CountOfParsed(SampleLines, SamplePairs, ParseLine, SharesSection);
    SampleCounts();
  }
}

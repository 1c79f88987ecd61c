/** Day 3 of 2021, "Binary Diagnostic": a report of equally long strings
    of '0' and '1'. Part one reads the most common bit of each position as
    the gamma rate and its complement as the epsilon rate; part two filters
    the report bit by bit down to the oxygen generator rating (most common
    bit, ties kept as '1') and the CO2 scrubber rating (least common bit,
    ties kept as '0'). */
module BinaryDiagnostic {
  import opened Wrappers

  const I32Min: int := -0x8000_0000
  const I32Max: int := 0x7FFF_FFFF

  predicate IsBit(c: char)
  {
    c == '0' || c == '1'
  }

  predicate AllBits(s: string)
  {
    forall i :: 0 <= i < |s| ==> IsBit(s[i])
  }

  /** Every line of the report is made of bits only. */
  predicate Diagnostic(lines: seq<string>)
  {
    forall k :: 0 <= k < |lines| ==> AllBits(lines[k])
  }

  /** What one character adds to a position's count. */
  function Sign(c: char): int
  {
    if c == '1' then 1 else if c == '0' then -1 else 0
  }

  /** The number of lines with `bit` at position `i`. */
  function CountBit(lines: seq<string>, i: nat, bit: char): (r: nat)
    ensures r <= |lines|
  {
    if |lines| == 0 then 0
    else
      var s := lines[|lines| - 1];
      CountBit(lines[..|lines| - 1], i, bit) + (if i < |s| && s[i] == bit then 1 else 0)
  }

  /** The length of the longest line. */
  function MaxLen(lines: seq<string>): (r: nat)
    ensures forall k :: 0 <= k < |lines| ==> |lines[k]| <= r
    ensures r == 0 || exists k :: 0 <= k < |lines| && |lines[k]| == r
  {
    if |lines| == 0 then 0
    else
      var m := MaxLen(lines[..|lines| - 1]);
      var s := lines[|lines| - 1];
      assert forall k :: 0 <= k < |lines| - 1 ==> lines[k] == lines[..|lines| - 1][k];
      if |s| > m then |s| else m
  }

  // ---------------------------------------------------------------
  // get_counts

  /** One character of a line counted at position `i`; the counts grow
      by a zero when `i` is their current length. */
  function Bump(counts: seq<int>, i: nat, bit: char): seq<int>
    requires i <= |counts|
  {
    var grown := if i == |counts| then counts + [0] else counts;
    grown[i := grown[i] + Sign(bit)]
  }

  /** The counts after the first `n` characters of `s`. */
  function AddPrefix(counts: seq<int>, s: string, n: nat): (r: seq<int>)
    requires n <= |s|
    ensures |r| == if n <= |counts| then |counts| else n
  {
    if n == 0 then counts
    else Bump(AddPrefix(counts, s, n - 1), n - 1, s[n - 1])
  }

  /** The counts after every line. */
  function Counts(lines: seq<string>): seq<int>
  {
    if |lines| == 0 then []
    else
      var s := lines[|lines| - 1];
      AddPrefix(Counts(lines[..|lines| - 1]), s, |s|)
  }

  /** `get_counts`, which panics (`None`) on a character other than a bit. */
  function CountsOf(lines: seq<string>): Option<seq<int>>
  {
    if Diagnostic(lines) then Some(Counts(lines)) else None
  }

  /** Counting a prefix adds each of its characters at its own position. */
  lemma {:induction false} AddPrefixMeaning(counts: seq<int>, s: string, n: nat)
    requires n <= |s|
    ensures forall k :: 0 <= k < |AddPrefix(counts, s, n)| ==>
      AddPrefix(counts, s, n)[k] == (if k < |counts| then counts[k] else 0) + (if k < n then Sign(s[k]) else 0)
  {
    if n > 0 {
      AddPrefixMeaning(counts, s, n - 1);
    }
  }

  /** No line reaches a position past the longest line. */
  lemma {:induction false} CountBitBeyond(lines: seq<string>, i: nat, bit: char)
    requires i >= MaxLen(lines)
    ensures CountBit(lines, i, bit) == 0
  {
    if |lines| > 0 {
      CountBitBeyond(lines[..|lines| - 1], i, bit);
    }
  }

  /** There is a count for every position of the longest line, and each is
      the number of '1's minus the number of '0's at that position. */
  lemma {:induction false} CountsMeaning(lines: seq<string>)
    ensures |Counts(lines)| == MaxLen(lines)
    ensures forall i :: 0 <= i < |Counts(lines)| ==>
      Counts(lines)[i] == CountBit(lines, i, '1') - CountBit(lines, i, '0')
  {
    if |lines| > 0 {
      var init := lines[..|lines| - 1];
      var s := lines[|lines| - 1];
      CountsMeaning(init);
      AddPrefixMeaning(Counts(init), s, |s|);
      forall i | 0 <= i < |Counts(lines)|
        ensures Counts(lines)[i] == CountBit(lines, i, '1') - CountBit(lines, i, '0')
      {
        if i >= |Counts(init)| {
          CountBitBeyond(init, i, '1');
          CountBitBeyond(init, i, '0');
        }
      }
    }
  }

  /** `get_counts`: every line's characters counted in turn, the counts
      growing as longer lines appear. */
  method GetCounts(bitStrings: seq<string>) returns (r: Option<seq<int>>)
    ensures r == CountsOf(bitStrings)
  {
    var counts: seq<int> := [];
    for j := 0 to |bitStrings|
      invariant forall k :: 0 <= k < j ==> AllBits(bitStrings[k])
      invariant counts == Counts(bitStrings[..j])
    {
      var s := bitStrings[j];
      assert bitStrings[..j + 1][..j] == bitStrings[..j];
      for i := 0 to |s|
        invariant forall m :: 0 <= m < i ==> IsBit(s[m])
        invariant counts == AddPrefix(Counts(bitStrings[..j]), s, i)
      {
        if |counts| == i {
          counts := counts + [0];
        }
        if s[i] == '0' {
          counts := counts[i := counts[i] - 1];
        } else if s[i] == '1' {
          counts := counts[i := counts[i] + 1];
        } else {
          assert !AllBits(bitStrings[j]);
          return None;
        }
      }
      assert AllBits(bitStrings[j]);
    }
    assert bitStrings[..|bitStrings|] == bitStrings;
    r := Some(counts);
  }

  // ---------------------------------------------------------------
  // get_count_at_index

  /** How counting one position ends: with a count, at a line too short to
      have the position (`None` in the source), or at a character other
      than a bit (a panic). */
  datatype BitCount = Counted(count: int) | TooShort | BadBit

  /** `get_count_at_index`: the lines taken in order, the first line too
      short or with a bad character deciding the outcome. */
  function CountAtIndex(lines: seq<string>, index: nat): BitCount
  {
    if |lines| == 0 then Counted(0)
    else
      match CountAtIndex(lines[..|lines| - 1], index)
      case Counted(n) =>
        var s := lines[|lines| - 1];
        if index >= |s| then TooShort
        else if !IsBit(s[index]) then BadBit
        else Counted(n + Sign(s[index]))
      case stop => stop
  }

  /** Every line has a bit at the position. */
  predicate BitsAt(lines: seq<string>, index: nat)
  {
    forall k :: 0 <= k < |lines| ==> index < |lines[k]| && IsBit(lines[k][index])
  }

  /** The position is counted exactly when every line has a bit there, and
      then the count is the number of '1's minus the number of '0's, which
      together are all the lines; otherwise some line is too short or has a
      bad character there. */
  lemma {:induction false} CountAtIndexMeaning(lines: seq<string>, index: nat)
    ensures CountAtIndex(lines, index).Counted? <==> BitsAt(lines, index)
    ensures CountAtIndex(lines, index).Counted? ==>
      CountAtIndex(lines, index).count == CountBit(lines, index, '1') - CountBit(lines, index, '0') &&
      CountBit(lines, index, '1') + CountBit(lines, index, '0') == |lines|
    ensures CountAtIndex(lines, index).TooShort? ==> exists k :: 0 <= k < |lines| && index >= |lines[k]|
    ensures CountAtIndex(lines, index).BadBit? ==>
      exists k :: 0 <= k < |lines| && index < |lines[k]| && !IsBit(lines[k][index])
  {
    if |lines| > 0 {
      var init := lines[..|lines| - 1];
      var last := |lines| - 1;
      CountAtIndexMeaning(init, index);
      assert forall k :: 0 <= k < last ==> lines[k] == init[k];
      var r := CountAtIndex(lines, index);
      if CountAtIndex(init, index).Counted? {
        if r.Counted? {
          assert BitsAt(lines, index);
        } else if r.TooShort? {
          assert index >= |lines[last]|;
        } else {
          assert !IsBit(lines[last][index]);
        }
      } else {
        assert !BitsAt(init, index);
        var k :| 0 <= k < last && !(index < |init[k]| && IsBit(init[k][index]));
        assert !(index < |lines[k]| && IsBit(lines[k][index]));
        if r.TooShort? {
          var j :| 0 <= j < last && index >= |init[j]|;
          assert index >= |lines[j]|;
        } else {
          var j :| 0 <= j < last && index < |init[j]| && !IsBit(init[j][index]);
          assert index < |lines[j]| && !IsBit(lines[j][index]);
        }
      }
    }
  }

  /** Once a line stops the count, the rest of the lines do not matter. */
  lemma {:induction false} CountAtIndexStop(lines: seq<string>, index: nat, j: nat)
    requires j <= |lines| && !CountAtIndex(lines[..j], index).Counted?
    ensures CountAtIndex(lines, index) == CountAtIndex(lines[..j], index)
    decreases |lines| - j
  {
    if j < |lines| {
      assert lines[..j + 1][..j] == lines[..j];
      CountAtIndexStop(lines, index, j + 1);
    } else {
      assert lines[..j] == lines;
    }
  }

  /** The source's test of `get_count_at_index` on "00000", "11111" and
      "01000": -1 at position 0, 1 at position 1, and none at position 8. */
  lemma CountAtIndexSample()
    ensures CountAtIndex(["00000", "11111", "01000"], 0) == Counted(-1)
    ensures CountAtIndex(["00000", "11111", "01000"], 1) == Counted(1)
    ensures CountAtIndex(["00000", "11111", "01000"], 8) == TooShort
  {
    var lines := ["00000", "11111", "01000"];
    assert lines[..2] == ["00000", "11111"] && lines[..2][..1] == ["00000"] && lines[..2][..1][..0] == [];
    assert CountAtIndex(["00000"], 0) == Counted(-1);
    assert CountAtIndex(["00000", "11111"], 0) == Counted(0);
    assert CountAtIndex(["00000"], 1) == Counted(-1);
    assert CountAtIndex(["00000", "11111"], 1) == Counted(0);
    assert CountAtIndex(["00000"], 8) == TooShort;
  }

  /** `get_count_at_index`: the loop over the lines, returning early on a
      short line. */
  method GetCountAtIndex(bitStrings: seq<string>, index: nat) returns (r: BitCount)
    ensures r == CountAtIndex(bitStrings, index)
  {
    var count := 0;
    for j := 0 to |bitStrings|
      invariant CountAtIndex(bitStrings[..j], index) == Counted(count)
    {
      var s := bitStrings[j];
      assert bitStrings[..j + 1][..j] == bitStrings[..j];
      if index >= |s| {
        CountAtIndexStop(bitStrings, index, j + 1);
        return TooShort;
      } else if s[index] == '0' {
        count := count - 1;
      } else if s[index] == '1' {
        count := count + 1;
      } else {
        CountAtIndexStop(bitStrings, index, j + 1);
        return BadBit;
      }
    }
    assert bitStrings[..|bitStrings|] == bitStrings;
    r := Counted(count);
  }

  // ---------------------------------------------------------------
  // Binary numbers

  function Pow2(n: nat): (r: nat)
    ensures r >= 1
  {
    if n == 0 then 1 else 2 * Pow2(n - 1)
  }

  /** The value of a string of bits, most significant first. */
  function BinaryValue(s: string): (r: nat)
    ensures r < Pow2(|s|)
  {
    if |s| == 0 then 0
    else 2 * BinaryValue(s[..|s| - 1]) + (if s[|s| - 1] == '1' then 1 else 0)
  }

  /** `i32::from_str_radix(s, 2)`: an optional sign, then at least one
      bit; `None` where it returns an error (a bad digit, an empty string,
      a value outside `i32`). */
  function FromBinary(s: string): (r: Option<int>)
    ensures r.Some? ==> I32Min <= r.value <= I32Max
  {
    if |s| == 0 then None
    else
      var digits := if s[0] == '+' || s[0] == '-' then s[1..] else s;
      if |digits| == 0 || !AllBits(digits) then None
      else
        var v: int := BinaryValue(digits);
        if s[0] == '-' then (if -v < I32Min then None else Some(-v))
        else if v > I32Max then None
        else Some(v)
  }

  /** A string of at most 31 bits reads as its value. */
  lemma FromBinaryBits(s: string)
    requires 0 < |s| <= 31 && AllBits(s)
    ensures FromBinary(s) == Some(BinaryValue(s))
  {
    Pow2Grows(|s|, 31);
    Pow2Of31();
  }

  lemma {:induction false} Pow2Add(a: nat, b: nat)
    ensures Pow2(a + b) == Pow2(a) * Pow2(b)
    decreases a
  {
    if a > 0 {
      Pow2Add(a - 1, b);
    }
  }

  lemma Pow2Of31()
    ensures Pow2(31) == 0x8000_0000
  {
    assert Pow2(1) == 2;
    Pow2Add(1, 1);
    Pow2Add(2, 2);
    Pow2Add(4, 4);
    Pow2Add(8, 8);
    Pow2Add(16, 8);
    Pow2Add(24, 4);
    Pow2Add(28, 2);
    Pow2Add(30, 1);
  }

  lemma {:induction false} Pow2Grows(m: nat, n: nat)
    requires m <= n
    ensures Pow2(m) <= Pow2(n)
    decreases n
  {
    if m < n {
      Pow2Grows(m, n - 1);
    }
  }

  // ---------------------------------------------------------------
  // part_one

  /** The gamma rate's bit for a position's count: the more common bit;
      a tie panics. */
  function GammaBit(count: int): Option<char>
  {
    if count > 0 then Some('1') else if count < 0 then Some('0') else None
  }

  /** The gamma rate's bits; `None` if some position is a tie. */
  function Gamma(counts: seq<int>): (r: Option<string>)
    ensures r.Some? ==> |r.value| == |counts| && AllBits(r.value)
  {
    if |counts| == 0 then Some([])
    else
      match Gamma(counts[..|counts| - 1])
      case None => None
      case Some(g) =>
        match GammaBit(counts[|counts| - 1])
        case None => None
        case Some(b) => Some(g + [b])
  }

  /** Gamma exists exactly when no position is a tie, and its bit at each
      position of the report is the more common bit there. */
  lemma {:induction false} GammaMeaning(lines: seq<string>)
    ensures var counts := Counts(lines);
      (Gamma(counts).Some? <==> forall i :: 0 <= i < |counts| ==> CountBit(lines, i, '1') != CountBit(lines, i, '0')) &&
      (Gamma(counts).Some? ==> forall i :: 0 <= i < |counts| ==>
        (Gamma(counts).value[i] == '1' <==> CountBit(lines, i, '1') > CountBit(lines, i, '0')))
  {
    var counts := Counts(lines);
    CountsMeaning(lines);
    GammaBits(counts);
    if Gamma(counts).None? {
      var i :| 0 <= i < |counts| && counts[i] == 0;
      assert CountBit(lines, i, '1') == CountBit(lines, i, '0');
    }
  }

  lemma {:induction false} GammaBits(counts: seq<int>)
    ensures Gamma(counts).Some? <==> forall i :: 0 <= i < |counts| ==> counts[i] != 0
    ensures Gamma(counts).Some? ==> forall i :: 0 <= i < |counts| ==> (Gamma(counts).value[i] == '1' <==> counts[i] > 0)
  {
    if |counts| > 0 {
      var init := counts[..|counts| - 1];
      GammaBits(init);
      assert forall i :: 0 <= i < |init| ==> init[i] == counts[i];
    }
  }

  /** Each bit flipped. */
  function Complement(s: string): (r: string)
    ensures |r| == |s|
  {
    if |s| == 0 then []
    else Complement(s[..|s| - 1]) + [if s[|s| - 1] == '1' then '0' else '1']
  }

  /** The complement of a string of bits is a string of bits whose value
      adds up with the original's to all ones. */
  lemma {:induction false} ComplementValue(s: string)
    requires AllBits(s)
    ensures AllBits(Complement(s))
    ensures BinaryValue(s) + BinaryValue(Complement(s)) == Pow2(|s|) - 1
  {
    if |s| > 0 {
      var init := s[..|s| - 1];
      assert AllBits(init);
      ComplementValue(init);
      assert Complement(s)[..|s| - 1] == Complement(init);
      var c := Complement(s);
      assert forall i :: 0 <= i < |s| - 1 ==> c[i] == Complement(init)[i];
    }
  }

  /** `i32` multiplication, whose overflow panics. */
  function CheckedMul(x: int, y: int): Option<int>
  {
    if I32Min <= x * y <= I32Max then Some(x * y) else None
  }

  /** The product of two rates read in base 2. */
  function Product(a: string, b: string): Option<int>
  {
    match (FromBinary(a), FromBinary(b))
    case (Some(x), Some(y)) => CheckedMul(x, y)
    case _ => None
  }

  /** `part_one`'s answer: gamma times epsilon. */
  function PowerConsumption(lines: seq<string>): Option<int>
  {
    match CountsOf(lines)
    case None => None
    case Some(counts) =>
      match Gamma(counts)
      case None => None
      case Some(gamma) => Product(gamma, Complement(gamma))
  }

  /** A string of bits that reads at all reads as its value. */
  lemma FromBinaryOfBits(s: string)
    requires AllBits(s) && FromBinary(s).Some?
    ensures FromBinary(s).value == BinaryValue(s)
  {
    assert s[0] != '+' && s[0] != '-';
  }

  /** A power consumption is gamma's value times that of its complement,
      the epsilon rate; the two add up to all ones over the longest line. */
  lemma PowerConsumptionMeaning(lines: seq<string>)
    requires PowerConsumption(lines).Some?
    ensures Diagnostic(lines) && Gamma(Counts(lines)).Some?
    ensures var gamma := Gamma(Counts(lines)).value;
      |gamma| == MaxLen(lines) &&
      PowerConsumption(lines) == CheckedMul(BinaryValue(gamma), BinaryValue(Complement(gamma))) &&
      BinaryValue(gamma) + BinaryValue(Complement(gamma)) == Pow2(MaxLen(lines)) - 1
  {
    assert CountsOf(lines) == Some(Counts(lines));
    CountsMeaning(lines);
    var gamma := Gamma(Counts(lines)).value;
    ComplementValue(gamma);
    ProductOfBits(gamma, Complement(gamma));
  }

  /** Two strings of bits that read multiply as their values. */
  lemma ProductOfBits(a: string, b: string)
    requires AllBits(a) && AllBits(b) && Product(a, b).Some?
    ensures Product(a, b) == CheckedMul(BinaryValue(a), BinaryValue(b))
  {
    FromBinaryOfBits(a);
    FromBinaryOfBits(b);
  }

  lemma BinaryValueSnoc(s: string, c: char)
    ensures BinaryValue(s + [c]) == 2 * BinaryValue(s) + (if c == '1' then 1 else 0)
    ensures Complement(s + [c]) == Complement(s) + [if c == '1' then '0' else '1']
  {
    assert (s + [c])[..|s|] == s;
  }

  /** The sample's gamma rate 10110 is 22 and its epsilon rate 01001 is 9,
      whose product is 198. */
  lemma PowerSample()
    ensures Product("10110", Complement("10110")) == Some(198)
  {
    var g1: string := ['1'];
    var e1: string := ['0'];
    BinaryValueSnoc([], '1');
    var g2, e2 := g1 + ['0'], e1 + ['1'];
    BinaryValueSnoc(g1, '0');
    var g3, e3 := g2 + ['1'], e2 + ['0'];
    BinaryValueSnoc(g2, '1');
    var g4, e4 := g3 + ['1'], e3 + ['0'];
    BinaryValueSnoc(g3, '1');
    var g5, e5 := g4 + ['0'], e4 + ['1'];
    BinaryValueSnoc(g4, '0');
    BinaryValueSnoc([], '0');
    BinaryValueSnoc(e1, '1');
    BinaryValueSnoc(e2, '0');
    BinaryValueSnoc(e3, '0');
    BinaryValueSnoc(e4, '1');
    assert BinaryValue(g5) == 22 && BinaryValue(e5) == 9 && Complement(g5) == e5;
    assert g5 == "10110";
    FromBinaryBits(g5);
    FromBinaryBits(e5);
  }

  /** `part_one`: the counts, the gamma rate, its complement and the
      product. */
  method PartOne(lines: seq<string>) returns (r: Option<int>)
    ensures r == PowerConsumption(lines)
  {
    var counts := GetCounts(lines);
    if counts.None? {
      return None;
    }
    var gamma := Gamma(counts.value);
    if gamma.None? {
      return None;
    }
    r := Product(gamma.value, Complement(gamma.value));
  }

  // ---------------------------------------------------------------
  // filter_bit_strings_iteratively

  /** The bit kept at a position with the given count: the most common bit
      (a tie keeps '1'), or the least common one (a tie keeps '0'). */
  function Keep(count: int, useLeast: bool): char
  {
    if !useLeast then (if count >= 0 then '1' else '0')
    else (if count < 0 then '1' else '0')
  }

  /** The lines with `bit` at `index`, in order (`Vec::retain`). */
  function Retain(lines: seq<string>, index: nat, bit: char): (r: seq<string>)
    ensures |r| == CountBit(lines, index, bit)
  {
    if |lines| == 0 then []
    else
      var s := lines[|lines| - 1];
      Retain(lines[..|lines| - 1], index, bit) + (if index < |s| && s[index] == bit then [s] else [])
  }

  /** The kept lines are exactly the lines with the bit at the position. */
  lemma {:induction false} RetainMeaning(lines: seq<string>, index: nat, bit: char)
    ensures forall s :: s in Retain(lines, index, bit) <==> s in lines && index < |s| && s[index] == bit
  {
    if |lines| > 0 {
      RetainMeaning(lines[..|lines| - 1], index, bit);
      assert lines == lines[..|lines| - 1] + [lines[|lines| - 1]];
    }
  }

  /** At a counted position the kept bit is the most common one, '1' on a
      tie, or the least common one, '0' on a tie; the most common bit keeps
      at least half of the lines and the least common at most half. */
  lemma KeepMeaning(lines: seq<string>, index: nat)
    requires CountAtIndex(lines, index).Counted?
    ensures var c := CountAtIndex(lines, index).count;
      (Keep(c, false) == '1' <==> CountBit(lines, index, '1') >= CountBit(lines, index, '0')) &&
      (Keep(c, true) == '1' <==> CountBit(lines, index, '1') < CountBit(lines, index, '0')) &&
      2 * |Retain(lines, index, Keep(c, false))| >= |lines| &&
      2 * |Retain(lines, index, Keep(c, true))| <= |lines|
  {
    CountAtIndexMeaning(lines, index);
  }

  function First(lines: seq<string>): Option<string>
  {
    if |lines| == 0 then None else Some(lines[0])
  }

  /** The filter from position `index` on: it stops at one line left, at a
      position some line is too short for, or after 100 positions, and
      answers the first line left (a panic if none is). */
  function FilterFrom(lines: seq<string>, index: nat, useLeast: bool): Option<string>
    requires index <= 100
    decreases 100 - index
  {
    if index == 100 || |lines| == 1 then First(lines)
    else
      match CountAtIndex(lines, index)
      case TooShort => First(lines)
      case BadBit => None
      case Counted(c) => FilterFrom(Retain(lines, index, Keep(c, useLeast)), index + 1, useLeast)
  }

  /** The oxygen generator rating (`useLeast` false) or the CO2 scrubber
      rating (`useLeast` true). */
  function Rating(lines: seq<string>, useLeast: bool): Option<string>
  {
    FilterFrom(lines, 0, useLeast)
  }

  /** A rating is one of the report's lines. */
  lemma {:induction false} FilterFromIsLine(lines: seq<string>, index: nat, useLeast: bool)
    requires index <= 100 && FilterFrom(lines, index, useLeast).Some?
    ensures FilterFrom(lines, index, useLeast).value in lines
    decreases 100 - index
  {
    if !(index == 100 || |lines| == 1) {
      var count := CountAtIndex(lines, index);
      if count.Counted? {
        var kept := Retain(lines, index, Keep(count.count, useLeast));
        FilterFromIsLine(kept, index + 1, useLeast);
        RetainMeaning(lines, index, Keep(count.count, useLeast));
      }
    }
  }

  /** Filtering by the most common bit never empties a report of bits, so
      the oxygen generator rating of a non-empty report exists. */
  lemma {:induction false} OxygenExists(lines: seq<string>, index: nat)
    requires index <= 100 && |lines| > 0 && Diagnostic(lines)
    ensures FilterFrom(lines, index, false).Some?
    decreases 100 - index
  {
    if !(index == 100 || |lines| == 1) {
      CountAtIndexMeaning(lines, index);
      var count := CountAtIndex(lines, index);
      if count.BadBit? {
        assert false;
      } else if count.Counted? {
        var bit := Keep(count.count, false);
        var kept := Retain(lines, index, bit);
        RetainMeaning(lines, index, bit);
        assert Diagnostic(kept) by {
          forall k | 0 <= k < |kept| ensures AllBits(kept[k]) {
            assert kept[k] in lines;
          }
        }
        OxygenExists(kept, index + 1);
      }
    }
  }

  /** An empty report stays empty and answers nothing. */
  lemma {:induction false} FilterFromEmpty(index: nat, useLeast: bool)
    requires index <= 100
    ensures FilterFrom([], index, useLeast) == None
    decreases 100 - index
  {
    if index < 100 {
      assert Retain([], index, Keep(0, useLeast)) == [];
      FilterFromEmpty(index + 1, useLeast);
    }
  }

  /** The least common bit can empty the report: of "10" and "11" at
      position 0, '1' is in both and '0' in neither, so the CO2 filter
      keeps nothing and the source panics. */
  lemma ScrubberCanEmpty()
    ensures Rating(["10", "11"], true) == None
  {
    var lines := ["10", "11"];
    assert lines[..1] == ["10"] && lines[..1][..0] == [];
    assert CountAtIndex(lines, 0) == Counted(2);
    assert lines[..1][0] == "10";
    assert Retain(lines[..1], 0, '0') == [];
    assert Retain(lines, 0, '0') == [];
    FilterFromEmpty(1, true);
  }

  /** `filter_bit_strings_iteratively`: the positions tried in turn, the
      lines kept by `retain`, and the first line left answered. */
  method FilterIteratively(bitStrings: seq<string>, useLeast: bool) returns (r: Option<string>)
    ensures r == Rating(bitStrings, useLeast)
  {
    var res := bitStrings;
    var index := 0;
    while index < 100
      invariant index <= 100
      invariant FilterFrom(res, index, useLeast) == Rating(bitStrings, useLeast)
    {
      if |res| == 1 {
        break;
      }
      var count := GetCountAtIndex(res, index);
      if count.TooShort? {
        break;
      }
      if count.BadBit? {
        return None;
      }
      res := Retain(res, index, Keep(count.count, useLeast));
      index := index + 1;
    }
    r := First(res);
  }

  // ---------------------------------------------------------------
  // part_two

  /** `part_two`'s answer: the two ratings read in base 2, multiplied. */
  function LifeSupport(lines: seq<string>): Option<int>
  {
    match (Rating(lines, false), Rating(lines, true))
    case (Some(oxygen), Some(scrubber)) => Product(oxygen, scrubber)
    case _ => None
  }

  /** Part two's answer multiplies two of the report's own lines, the
      oxygen and the CO2 ratings; on a report of bits, by their values. */
  lemma LifeSupportMeaning(lines: seq<string>)
    requires LifeSupport(lines).Some?
    ensures var (oxygen, scrubber) := (Rating(lines, false), Rating(lines, true));
      && oxygen.Some? && scrubber.Some?
      && oxygen.value in lines && scrubber.value in lines
      && ((forall l :: l in lines ==> AllBits(l)) ==>
            LifeSupport(lines) == CheckedMul(BinaryValue(oxygen.value), BinaryValue(scrubber.value)))
  {
    FilterFromIsLine(lines, 0, false);
    FilterFromIsLine(lines, 0, true);
    if forall l :: l in lines ==> AllBits(l) {
      ProductOfBits(Rating(lines, false).value, Rating(lines, true).value);
    }
  }

  method PartTwo(lines: seq<string>) returns (r: Option<int>)
    ensures r == LifeSupport(lines)
  {
    var oxygen := FilterIteratively(lines, false);
    var scrubber := FilterIteratively(lines, true);
    if oxygen.None? || scrubber.None? {
      return None;
    }
    r := Product(oxygen.value, scrubber.value);
  }
}

/** Day 2 of 2015, "I Was Told There Would Be No Math": each present is a
    box "LxWxH"; the elves need its surface plus the smallest face in
    paper, and the smallest perimeter plus the volume in ribbon. */
module PresentWrapping {
  import opened Wrappers
  import opened Strings

  datatype Present = Present(l: nat, w: nat, h: nat)

  datatype ParsePresentError = SplitError | IntegerParseError

  /** The three dimensions in ascending order, as `dims.sort()` leaves them. */
  function Sort3(a: nat, b: nat, c: nat): (s: (nat, nat, nat))
    ensures s.0 <= s.1 <= s.2
    ensures multiset{s.0, s.1, s.2} == multiset{a, b, c}
  {
    if a <= b then
      if b <= c then (a, b, c) else if a <= c then (a, c, b) else (c, a, b)
    else
      if a <= c then (b, a, c) else if b <= c then (b, c, a) else (c, b, a)
  }

  function Min3(x: nat, y: nat, z: nat): (m: nat)
    ensures m <= x && m <= y && m <= z && (m == x || m == y || m == z)
  {
    if x <= y && x <= z then x else if y <= z then y else z
  }

  function Surface(p: Present): nat
  {
    2 * p.l * p.w + 2 * p.l * p.h + 2 * p.w * p.h
  }

  /** `wrapping_paper`: the surface plus the product of the two smallest
      dimensions. */
  function WrappingPaper(p: Present): nat
  {
    var d := Sort3(p.l, p.w, p.h);
    Surface(p) + d.0 * d.1
  }

  /** `ribbon`: twice the two smallest dimensions plus the volume. */
  function Ribbon(p: Present): nat
  {
    var d := Sort3(p.l, p.w, p.h);
    2 * d.0 + 2 * d.1 + p.l * p.w * p.h
  }

  lemma ProductMonotone(a: nat, b: nat, c: nat, d: nat)
    requires a <= c && b <= d
    ensures a * b <= c * d
  {
    assert a * b <= c * b;
    assert c * b <= c * d;
  }

  /** Of a sorted box, the face of the two smallest sides is the smallest. */
  lemma SortedSmallestFace(a: nat, b: nat, c: nat)
    requires a <= b <= c
    ensures a * b == Min3(a * b, a * c, b * c)
  {
    ProductMonotone(a, b, a, c);
    ProductMonotone(a, c, b, c);
  }

  /** The slack is the area of the smallest face. */
  lemma WrappingPaperSmallestFace(p: Present)
    ensures WrappingPaper(p) == Surface(p) + Min3(p.l * p.w, p.l * p.h, p.w * p.h)
  {
    var l, w, h := p.l, p.w, p.h;
    var d := Sort3(l, w, h);
    SortedSmallestFace(d.0, d.1, d.2);
    if l <= w {
      if w <= h {
        assert d == (l, w, h);
      } else if l <= h {
        assert d == (l, h, w);
      } else {
        assert d == (h, l, w);
        assert h * l == l * h && h * w == w * h;
      }
    } else {
      if l <= h {
        assert d == (w, l, h);
        assert w * l == l * w;
      } else if w <= h {
        assert d == (w, h, l);
        assert w * l == l * w && h * l == l * h;
      } else {
        assert d == (h, w, l);
        assert h * w == w * h && h * l == l * h && w * l == l * w;
      }
    }
  }

  /** The ribbon wraps the smallest perimeter, and the bow is the volume. */
  lemma RibbonSmallestPerimeter(p: Present)
    ensures Ribbon(p) == Min3(2 * (p.l + p.w), 2 * (p.l + p.h), 2 * (p.w + p.h)) + p.l * p.w * p.h
  {
    var l, w, h := p.l, p.w, p.h;
    var d := Sort3(l, w, h);
    if l <= w {
      if w <= h {
        assert d == (l, w, h);
      } else if l <= h {
        assert d == (l, h, w);
      } else {
        assert d == (h, l, w);
      }
    } else {
      if l <= h {
        assert d == (w, l, h);
      } else if w <= h {
        assert d == (w, h, l);
      } else {
        assert d == (h, w, l);
      }
    }
  }

  lemma SurfaceTurns(p: Present)
    ensures Surface(Present(p.w, p.l, p.h)) == Surface(p)
    ensures Surface(Present(p.l, p.h, p.w)) == Surface(p)
  {
    assert p.w * p.l == p.l * p.w && p.w * p.h == p.h * p.w && p.l * p.h == p.h * p.l;
    assert 2 * p.w * p.l == 2 * p.l * p.w;
    assert 2 * p.h * p.w == 2 * p.w * p.h;
    assert 2 * p.l * p.h == 2 * p.h * p.l;
  }

  /** Sorting forgets the order the dimensions were given in. */
  lemma Sort3Turns(a: nat, b: nat, c: nat)
    ensures Sort3(b, a, c) == Sort3(a, b, c)
    ensures Sort3(a, c, b) == Sort3(a, b, c)
  {
    if a <= b {
      if b <= c {
        assert Sort3(a, b, c) == (a, b, c);
      } else if a <= c {
        assert Sort3(a, b, c) == (a, c, b);
      } else {
        assert Sort3(a, b, c) == (c, a, b);
      }
    } else {
      if a <= c {
        assert Sort3(a, b, c) == (b, a, c);
      } else if b <= c {
        assert Sort3(a, b, c) == (b, c, a);
      } else {
        assert Sort3(a, b, c) == (c, b, a);
      }
    }
  }

  lemma VolumeTurns(l: nat, w: nat, h: nat)
    ensures w * l * h == l * w * h && l * h * w == l * w * h
  {
    assert w * l == l * w;
    assert h * w == w * h;
    assert l * h * w == l * (h * w);
    assert l * w * h == l * (w * h);
  }

  /** Turning the box does not change what it needs: swapping the first
      two or the last two dimensions, which between them give every
      order. */
  lemma {:induction false} TurningInvariant(p: Present)
    ensures WrappingPaper(Present(p.w, p.l, p.h)) == WrappingPaper(p)
    ensures WrappingPaper(Present(p.l, p.h, p.w)) == WrappingPaper(p)
    ensures Ribbon(Present(p.w, p.l, p.h)) == Ribbon(p)
    ensures Ribbon(Present(p.l, p.h, p.w)) == Ribbon(p)
  {
    Sort3Turns(p.l, p.w, p.h);
    SurfaceTurns(p);
    VolumeTurns(p.l, p.w, p.h);
  }

  /** The source's examples: 2x3x4 needs 58 and 34, 1x1x10 needs 43 and
      14, in either order of the dimensions given. */
  lemma Examples()
    ensures WrappingPaper(Present(2, 3, 4)) == 58 && WrappingPaper(Present(2, 4, 3)) == 58
    ensures WrappingPaper(Present(1, 1, 10)) == 43 && WrappingPaper(Present(10, 1, 1)) == 43
    ensures Ribbon(Present(2, 3, 4)) == 34 && Ribbon(Present(2, 4, 3)) == 34
    ensures Ribbon(Present(1, 1, 10)) == 14 && Ribbon(Present(10, 1, 1)) == 14
  {
  }

  // ---------------------------------------------------------------
  // Parsing

  /** `parse_to_int`: a `usize`, so a number of 2^64 or more is an
      `IntegerParseError` like any other text that is not a number. */
  function ParseToInt(s: string): (r: Result<nat, ParsePresentError>)
    ensures r.Ok? <==> ParseNat(s).Some? && ParseNat(s).value < USizeLimit
    ensures r.Ok? ==> r.value == ParseNat(s).value
    ensures r.Err? ==> r.error == IntegerParseError
  {
    match ParseUSize(s)
    case Some(n) => Ok(n)
    case None => Err(IntegerParseError)
  }

  /** `Present::from_str`: exactly three pieces split on 'x', each a number. */
  function PresentFromStr(s: string): (r: Result<Present, ParsePresentError>)
    ensures r == Err(SplitError) <==> |SplitOn(s, "x")| != 3
    ensures r == Err(IntegerParseError) <==>
      |SplitOn(s, "x")| == 3 && exists i :: 0 <= i < 3 && ParseUSize(SplitOn(s, "x")[i]).None?
  {
    var lwh := SplitOn(s, "x");
    if |lwh| != 3 then Err(SplitError)
    else match ParseToInt(lwh[0])
      case Err(e) => Err(e)
      case Ok(l) =>
        match ParseToInt(lwh[1])
        case Err(e) => Err(e)
        case Ok(w) =>
          match ParseToInt(lwh[2])
          case Err(e) => Err(e)
          case Ok(h) => Ok(Present(l, w, h))
  }

  /** The present as its line of input. */
  function PresentText(p: Present): string
  {
    NatToString(p.l) + "x" + NatToString(p.w) + "x" + NatToString(p.h)
  }

  lemma NoLetterInNumber(n: nat)
    ensures 'x' !in NatToString(n)
  {
    var s := NatToString(n);
    assert forall i :: 0 <= i < |s| ==> IsDigit(s[i]);
  }

  /** A present written out splits on 'x' into its three numbers. */
  lemma PresentTextSplits(p: Present)
    ensures SplitOn(PresentText(p), "x") == [NatToString(p.l), NatToString(p.w), NatToString(p.h)]
  {
    var a, b, c := NatToString(p.l), NatToString(p.w), NatToString(p.h);
    NoLetterInNumber(p.l);
    NoLetterInNumber(p.w);
    NoLetterInNumber(p.h);
    SplitOnSep(c, "x", "");
    SplitOnSep(b, "x", c);
    SplitOnSep(a, "x", b + "x" + c);
    assert PresentText(p) == a + "x" + (b + "x" + c);
  }

  /** A present whose sides fit a `usize`, written out, reads back as
      itself. */
  lemma PresentTextRoundTrip(p: Present)
    requires p.l < USizeLimit && p.w < USizeLimit && p.h < USizeLimit
    ensures PresentFromStr(PresentText(p)) == Ok(p)
  {
    PresentTextSplits(p);
    ParseNatToString(p.l);
    ParseNatToString(p.w);
    ParseNatToString(p.h);
  }

  /** The source's parsing examples, "4x5x8" and "34x5x21", written
      character by character. */
  lemma ParseExamples(s1: string, s2: string)
    requires |s1| == 5 && s1[0] == '4' && s1[1] == 'x' && s1[2] == '5' && s1[3] == 'x' && s1[4] == '8'
    requires |s2| == 7 && s2[0] == '3' && s2[1] == '4' && s2[2] == 'x' && s2[3] == '5' && s2[4] == 'x'
      && s2[5] == '2' && s2[6] == '1'
    ensures PresentFromStr(s1) == Ok(Present(4, 5, 8))
    ensures PresentFromStr(s2) == Ok(Present(34, 5, 21))
  {
    PresentTextRoundTrip(Present(4, 5, 8));
    PresentTextRoundTrip(Present(34, 5, 21));
    assert NatToString(34) == "34" && NatToString(21) == "21";
    assert s1 == PresentText(Present(4, 5, 8));
    assert s2 == PresentText(Present(34, 5, 21));
  }

  /** A line as `get_lines_of_type` reads it: a present, or nothing. */
  function ReadPresent(line: string): Option<Present>
  {
    match PresentFromStr(line)
    case Ok(p) => Some(p)
    case Err(_) => None
  }

  function SumPaper(ps: seq<Present>): nat
    decreases |ps|
  {
    if |ps| == 0 then 0 else WrappingPaper(ps[0]) + SumPaper(ps[1..])
  }

  function SumRibbon(ps: seq<Present>): nat
    decreases |ps|
  {
    if |ps| == 0 then 0 else Ribbon(ps[0]) + SumRibbon(ps[1..])
  }

  /** `part_one`: the paper for every present that parses. */
  function PartOne(input: string): nat
  {
    SumPaper(ParseEach(Lines(input), ReadPresent))
  }

  /** `part_two`: the ribbon for every present that parses. */
  function PartTwo(input: string): nat
  {
    SumRibbon(ParseEach(Lines(input), ReadPresent))
  }

  lemma {:induction false} SumsAppend(a: seq<Present>, b: seq<Present>)
    ensures SumPaper(a + b) == SumPaper(a) + SumPaper(b)
    ensures SumRibbon(a + b) == SumRibbon(a) + SumRibbon(b)
    decreases |a|
  {
    if |a| > 0 {
      assert (a + b)[1..] == a[1..] + b;
      SumsAppend(a[1..], b);
    } else {
      assert a + b == b;
    }
  }

  /** The order is split anywhere into two lists: the paper and ribbon of
      the whole are the sums of the two parts', and a line that does not
      parse adds nothing. */
  lemma TotalsSplit(a: seq<string>, b: seq<string>)
    ensures SumPaper(ParseEach(a + b, ReadPresent)) == SumPaper(ParseEach(a, ReadPresent)) + SumPaper(ParseEach(b, ReadPresent))
    ensures SumRibbon(ParseEach(a + b, ReadPresent)) == SumRibbon(ParseEach(a, ReadPresent)) + SumRibbon(ParseEach(b, ReadPresent))
  {
    ParseEachAppend(a, b, ReadPresent);
    SumsAppend(ParseEach(a, ReadPresent), ParseEach(b, ReadPresent));
  }

  /** Every present needs at least its surface in paper and its volume in
      ribbon. */
  lemma NeedsAtLeast(p: Present)
    ensures WrappingPaper(p) >= Surface(p) && Ribbon(p) >= p.l * p.w * p.h
  {
  }
}

/** Day 5 of 2023, "If You Give A Seed A Fertilizer": an almanac of maps,
    each a list of `(destination start, source start, length)` ranges,
    sends a seed number through soil, fertilizer, ... to a location; the
    answers are the lowest locations of the listed seeds and of the seed
    ranges. */
module Almanac {
  import opened Wrappers

  /** The starting value of part two's minimum, `u64::MAX`. */
  const U64Max: nat := 0xFFFF_FFFF_FFFF_FFFF

  /** One line of a map: `len` numbers from `src` on go to `dst` on. */
  datatype Mapping = Mapping(dst: nat, src: nat, len: nat)

  /** A map with the names of its source and destination categories. */
  datatype Map = Map(from: string, to: string, mappings: seq<Mapping>)

  predicate Covers(m: Mapping, n: nat)
  {
    m.src <= n < m.src + m.len
  }

  /** Line `k` is the first to hold `n`. */
  predicate FirstCover(mappings: seq<Mapping>, k: int, n: nat)
  {
    0 <= k < |mappings| && Covers(mappings[k], n) && forall j :: 0 <= j < k ==> !Covers(mappings[j], n)
  }

  /** `Map::map` over the mapping lines: the first line whose source range
      holds `n` shifts it to the destination range. */
  function MapNumber(mappings: seq<Mapping>, n: nat): nat
    decreases |mappings|
  {
    if |mappings| == 0 then n
    else if Covers(mappings[0], n) then mappings[0].dst + n - mappings[0].src
    else MapNumber(mappings[1..], n)
  }

  /** A number no line holds is its own image; otherwise the first line
      that holds it shifts it into that line's destination range. */
  lemma {:induction false} MapNumberMeaning(mappings: seq<Mapping>, n: nat)
    ensures (forall k :: 0 <= k < |mappings| ==> !Covers(mappings[k], n)) ==> MapNumber(mappings, n) == n
    ensures forall k :: FirstCover(mappings, k, n) ==>
      var r := MapNumber(mappings, n);
      r == mappings[k].dst + (n - mappings[k].src) && mappings[k].dst <= r < mappings[k].dst + mappings[k].len
    decreases |mappings|
  {
    if |mappings| > 0 && !Covers(mappings[0], n) {
      var rest := mappings[1..];
      MapNumberMeaning(rest, n);
      assert forall k :: 1 <= k < |mappings| ==> mappings[k] == rest[k - 1];
      forall k | FirstCover(mappings, k, n) ensures FirstCover(rest, k - 1, n) {
        assert forall j :: 0 <= j < k - 1 ==> rest[j] == mappings[j + 1];
      }
    }
  }

  /** The samples of the source's test of `Map::map`: below both ranges,
      into the second range, and into the first. */
  lemma MapNumberSamples()
    ensures var ms := [Mapping(50, 98, 2), Mapping(52, 50, 48)];
      MapNumber(ms, 0) == 0 && MapNumber(ms, 1) == 1 && MapNumber(ms, 48) == 48 &&
      MapNumber(ms, 49) == 49 && MapNumber(ms, 50) == 52 && MapNumber(ms, 51) == 53 &&
      MapNumber(ms, 96) == 98 && MapNumber(ms, 97) == 99 && MapNumber(ms, 98) == 50 &&
      MapNumber(ms, 99) == 51
  {
    var ms := [Mapping(50, 98, 2), Mapping(52, 50, 48)];
    assert Covers(ms[1], 50) && Covers(ms[1], 51) && Covers(ms[1], 96) && Covers(ms[1], 97);
    assert Covers(ms[0], 98) && Covers(ms[0], 99);
  }

  /** Lines whose source ranges overlap nothing else may come in any
      order: swapping two neighbouring lines that hold no number in common
      changes no image. */
  lemma {:induction false} MapNumberSwap(a: seq<Mapping>, m1: Mapping, m2: Mapping, b: seq<Mapping>, n: nat)
    requires !(Covers(m1, n) && Covers(m2, n))
    ensures MapNumber(a + [m1, m2] + b, n) == MapNumber(a + [m2, m1] + b, n)
    decreases |a|
  {
    if |a| > 0 {
      assert (a + [m1, m2] + b)[1..] == a[1..] + [m1, m2] + b;
      assert (a + [m2, m1] + b)[1..] == a[1..] + [m2, m1] + b;
      MapNumberSwap(a[1..], m1, m2, b, n);
    } else {
      assert (a + [m1, m2] + b)[1..][1..] == b;
      assert (a + [m2, m1] + b)[1..][1..] == b;
    }
  }

  // ---------------------------------------------------------------
  // The chain of maps

  /** `ChainMap::map`: the maps applied left to right, each image fed to
      the next map. */
  function Chained(maps: seq<Map>, n: nat): nat
    decreases |maps|
  {
    if |maps| == 0 then n else Chained(maps[1..], MapNumber(maps[0].mappings, n))
  }

  /** Chaining two lists of maps is chaining the first and then the
      second. */
  lemma {:induction false} ChainedAppend(a: seq<Map>, b: seq<Map>, n: nat)
    ensures Chained(a + b, n) == Chained(b, Chained(a, n))
    decreases |a|
  {
    if |a| > 0 {
      assert (a + b)[1..] == a[1..] + b;
      ChainedAppend(a[1..], b, MapNumber(a[0].mappings, n));
    } else {
      assert a + b == b;
    }
  }

  /** A number no line of any map holds goes through the chain unchanged. */
  lemma {:induction false} ChainedUncovered(maps: seq<Map>, n: nat)
    requires forall i, k :: 0 <= i < |maps| && 0 <= k < |maps[i].mappings| ==> !Covers(maps[i].mappings[k], n)
    ensures Chained(maps, n) == n
    decreases |maps|
  {
    if |maps| > 0 {
      var rest := maps[1..];
      assert forall i :: 0 <= i < |rest| ==> rest[i] == maps[i + 1];
      MapNumberMeaning(maps[0].mappings, n);
      ChainedUncovered(rest, n);
    }
  }

  /** The loop of `ChainMap::map`. */
  method ChainMap(maps: seq<Map>, num: nat) returns (r: nat)
    ensures r == Chained(maps, num)
  {
    r := num;
    for i := 0 to |maps|
      invariant Chained(maps, num) == Chained(maps[i..], r)
    {
      assert maps[i..][1..] == maps[i + 1..];
      r := MapNumber(maps[i].mappings, r);
    }
  }

  // ---------------------------------------------------------------
  // Part one: the lowest location of the listed seeds

  /** A seed's location through the maps. */
  function Location(maps: seq<Map>): nat -> nat
  {
    n => Chained(maps, n)
  }

  /** The lowest location `loc` of the seeds; `None` for no seeds, where
      `min().unwrap()` panics. */
  function LowestOf(loc: nat -> nat, seeds: seq<nat>): (r: Option<nat>)
    ensures r.Some? <==> |seeds| > 0
    ensures r.Some? ==> forall k :: 0 <= k < |seeds| ==> r.value <= loc(seeds[k])
    ensures r.Some? ==> exists k :: 0 <= k < |seeds| && r.value == loc(seeds[k])
    decreases |seeds|
  {
    if |seeds| == 0 then None
    else
      var here := loc(seeds[|seeds| - 1]);
      match LowestOf(loc, seeds[..|seeds| - 1])
      case None => Some(here)
      case Some(low) => Some(if here < low then here else low)
  }

  /** `part_one` on the parsed almanac: the lowest location of the
      seeds. */
  function PartOne(seeds: seq<nat>, maps: seq<Map>): Option<nat>
  {
    LowestOf(Location(maps), seeds)
  }

  // ---------------------------------------------------------------
  // Part two: the lowest location of the seed ranges

  /** `n` lies in one of the ranges given by the seeds read in pairs
      `(start, length)`. */
  predicate InRanges(seeds: seq<nat>, n: nat)
    decreases |seeds|
  {
    |seeds| >= 2 &&
    (InRanges(seeds[..|seeds| - 2], n) || seeds[|seeds| - 2] <= n < seeds[|seeds| - 2] + seeds[|seeds| - 1])
  }

  /** The inner loop's minimum: `low` lowered by the locations `loc` of
      the `count` seeds from `start` on. */
  function RangeLowest(loc: nat -> nat, start: nat, count: nat, low: nat): nat
    decreases count
  {
    if count == 0 then low
    else
      var sofar := RangeLowest(loc, start, count - 1, low);
      var here := loc(start + count - 1);
      if here < sofar then here else sofar
  }

  /** The outer loop's minimum over the pairs of seeds, from `low`. */
  function PairsLowest(loc: nat -> nat, seeds: seq<nat>, low: nat): nat
    requires |seeds| % 2 == 0
    decreases |seeds|
  {
    if |seeds| == 0 then low
    else RangeLowest(loc, seeds[|seeds| - 2], seeds[|seeds| - 1], PairsLowest(loc, seeds[..|seeds| - 2], low))
  }

  /** `part_two`: `None` for an odd number of seeds, whose last pair has
      no length and panics. */
  function LowestInRanges(seeds: seq<nat>, maps: seq<Map>): Option<nat>
  {
    if |seeds| % 2 == 1 then None else Some(PairsLowest(Location(maps), seeds, U64Max))
  }

  /** The inner minimum is at most `low` and every location of the range,
      and is `low` or one of those locations. */
  lemma {:induction false} RangeLowestMeaning(loc: nat -> nat, start: nat, count: nat, low: nat)
    ensures RangeLowest(loc, start, count, low) <= low
    ensures forall n :: start <= n < start + count ==> RangeLowest(loc, start, count, low) <= loc(n)
    ensures RangeLowest(loc, start, count, low) == low ||
      exists n :: start <= n < start + count && RangeLowest(loc, start, count, low) == loc(n)
    decreases count
  {
    if count > 0 {
      RangeLowestMeaning(loc, start, count - 1, low);
    }
  }

  /** The answer of part two is at most `low` and the location of every
      seed in the ranges, and is `low` or one of those locations. */
  lemma {:induction false} PairsLowestMeaning(loc: nat -> nat, seeds: seq<nat>, low: nat)
    requires |seeds| % 2 == 0
    ensures PairsLowest(loc, seeds, low) <= low
    ensures forall n :: InRanges(seeds, n) ==> PairsLowest(loc, seeds, low) <= loc(n)
    ensures PairsLowest(loc, seeds, low) == low ||
      exists n :: InRanges(seeds, n) && PairsLowest(loc, seeds, low) == loc(n)
    decreases |seeds|
  {
    if |seeds| > 0 {
      var init := seeds[..|seeds| - 2];
      var start, count := seeds[|seeds| - 2], seeds[|seeds| - 1];
      var inner := PairsLowest(loc, init, low);
      PairsLowestMeaning(loc, init, low);
      RangeLowestMeaning(loc, start, count, inner);
      var r := PairsLowest(loc, seeds, low);
      if r != low {
        if r == inner {
          var n :| InRanges(init, n) && inner == loc(n);
          assert InRanges(seeds, n);
        } else {
          var n :| start <= n < start + count && r == loc(n);
          assert InRanges(seeds, n);
        }
      }
    }
  }

  /** The answer of part two, when there is one, is the lowest location
      of the seeds in the ranges, or `u64::MAX` when that is lower. */
  lemma LowestInRangesMeaning(seeds: seq<nat>, maps: seq<Map>)
    ensures LowestInRanges(seeds, maps).Some? <==> |seeds| % 2 == 0
    ensures LowestInRanges(seeds, maps).Some? ==>
      var r := LowestInRanges(seeds, maps).value;
      r <= U64Max && (forall n :: InRanges(seeds, n) ==> r <= Chained(maps, n)) &&
      (r == U64Max || exists n :: InRanges(seeds, n) && r == Chained(maps, n))
  {
    if |seeds| % 2 == 0 {
      PairsLowestMeaning(Location(maps), seeds, U64Max);
    }
  }

  /** Every seed range of length one is its seed: part two on pairs
      `(s, 1)` is part one on the seeds `s`, lowered to `low`. */
  lemma {:induction false} UnitRanges(loc: nat -> nat, seeds: seq<nat>, starts: seq<nat>, low: nat)
    requires |seeds| == 2 * |starts|
    requires forall k :: 0 <= k < |starts| ==> seeds[2 * k] == starts[k] && seeds[2 * k + 1] == 1
    ensures var one := LowestOf(loc, starts);
      PairsLowest(loc, seeds, low) == if one.None? || low < one.value then low else one.value
    decreases |starts|
  {
    if |starts| > 0 {
      var init, sinit := seeds[..|seeds| - 2], starts[..|starts| - 1];
      forall k | 0 <= k < |sinit| ensures init[2 * k] == sinit[k] && init[2 * k + 1] == 1 {
        assert seeds[2 * k] == starts[k] && seeds[2 * k + 1] == 1;
      }
      UnitRanges(loc, init, sinit, low);
      var k := |starts| - 1;
      assert seeds[2 * k] == starts[k] && seeds[2 * k + 1] == 1;
    }
  }

  /** The next pair of seeds lowers the minimum by its range. */
  lemma PairsStep(loc: nat -> nat, seeds: seq<nat>, i: nat, low: nat)
    requires i % 2 == 0 && i + 2 <= |seeds|
    ensures PairsLowest(loc, seeds[..i + 2], low) == RangeLowest(loc, seeds[i], seeds[i + 1], PairsLowest(loc, seeds[..i], low))
  {
    assert seeds[..i + 2][..i] == seeds[..i];
  }

  /** The inner loop of `part_two`: every seed of the range from `start`
      lowers the running minimum `low` to its location. */
  method LowerByRange(maps: seq<Map>, start: nat, count: nat, low: nat) returns (res: nat)
    ensures res == RangeLowest(Location(maps), start, count, low)
  {
    ghost var loc := Location(maps);
    res := low;
    for num := start to start + count
      invariant res == RangeLowest(loc, start, num - start, low)
    {
      var location := ChainMap(maps, num);
      assert location == loc(num);
      if location < res {
        res := location;
      }
    }
  }

  /** The outer loop of `part_two`, over the seeds read in pairs. */
  method PartTwo(seeds: seq<nat>, maps: seq<Map>) returns (r: Option<nat>)
    ensures r == LowestInRanges(seeds, maps)
  {
    var res := U64Max;
    var i := 0;
    while i < |seeds|
      invariant i <= |seeds| && i % 2 == 0
      invariant res == PairsLowest(Location(maps), seeds[..i], U64Max)
      decreases |seeds| - i
    {
      if i + 1 == |seeds| {
        return None;
      }
      res := LowerByRange(maps, seeds[i], seeds[i + 1], res);
      PairsStep(Location(maps), seeds, i, U64Max);
      i := i + 2;
    }
    assert seeds[..i] == seeds;
    r := Some(res);
  }
}

/** Day 6 of 2021, "Lanternfish": every fish carries a timer; a fish at 0
    resets to 6 and spawns a new fish at 8, any other fish counts down by
    one. The school is kept as nine buckets, one per timer value, and the
    answer is the number of fish after so many days. */
module Lanternfish {
  import opened Wrappers
  import opened Strings
  import opened Seqs

  // ---------------------------------------------------------------
  // The fish one by one: the reference the buckets are checked against

  /** Every timer is one the school has a bucket for. */
  predicate Timers(fish: seq<nat>) { forall i :: 0 <= i < |fish| ==> fish[i] < 9 }

  /** One fish's timer a day later. */
  function Older(t: nat): nat
  {
    if t == 0 then 6 else t - 1
  }

  /** How many fish carry timer `t`. */
  function CountOf(fish: seq<nat>, t: int): nat
  {
    multiset(fish)[t]
  }

  /** A day passes: every fish ages and each fish at 0 adds a new fish at 8
      at the end of the school. */
  function Day(fish: seq<nat>): (r: seq<nat>)
    ensures |r| == |fish| + CountOf(fish, 0)
  {
    seq(|fish|, i requires 0 <= i < |fish| => Older(fish[i])) + seq(CountOf(fish, 0), _ => 8)
  }

  /** `n` days pass. */
  function Days(fish: seq<nat>, n: nat): seq<nat>
    decreases n
  {
    if n == 0 then fish else Days(Day(fish), n - 1)
  }

  // ---------------------------------------------------------------
  // The buckets

  /** The nine buckets of a school: bucket `t` counts the fish at timer `t`. */
  function Buckets(fish: seq<nat>): (c: seq<nat>)
    ensures |c| == 9
  {
    seq(9, t => CountOf(fish, t))
  }

  /** `increment` on the buckets: bucket 0 goes to 6 and spawns as many into
      8, every other bucket moves down by one. */
  function Age(c: seq<nat>): (r: seq<nat>)
    requires |c| == 9
    ensures |r| == 9
  {
    [c[1], c[2], c[3], c[4], c[5], c[6], c[7] + c[0], c[8], c[0]]
  }

  /** `n` calls to `increment`. */
  function AgeDays(c: seq<nat>, n: nat): (r: seq<nat>)
    requires |c| == 9
    ensures |r| == 9
    decreases n
  {
    if n == 0 then c else AgeDays(Age(c), n - 1)
  }

  /** The fish at timer `t` a day later came from timer `t + 1`, and those
      at 6 also from timer 0; nobody ages into 8. */
  lemma {:induction false} OlderCounts(fish: seq<nat>, t: nat)
    requires Timers(fish)
    ensures var older := seq(|fish|, i requires 0 <= i < |fish| => Older(fish[i]));
      multiset(older)[t] ==
        if t == 6 then CountOf(fish, 0) + CountOf(fish, 7)
        else if t >= 8 then 0
        else CountOf(fish, t + 1)
    decreases |fish|
  {
    if |fish| > 0 {
      var init, x := fish[..|fish| - 1], fish[|fish| - 1];
      assert fish == init + [x];
      OlderCounts(init, t);
      var older := seq(|fish|, i requires 0 <= i < |fish| => Older(fish[i]));
      var olderInit := seq(|init|, i requires 0 <= i < |init| => Older(init[i]));
      assert older == olderInit + [Older(x)];
      assert multiset(older) == multiset(olderInit) + multiset{Older(x)};
      assert multiset(fish) == multiset(init) + multiset{x};
    }
  }

  /** The buckets of the school a day later are the aged buckets: the
      nine numbers follow the fish exactly. */
  lemma BucketsDay(fish: seq<nat>)
    requires Timers(fish)
    ensures Timers(Day(fish))
    ensures Buckets(Day(fish)) == Age(Buckets(fish))
  {
    var older := seq(|fish|, i requires 0 <= i < |fish| => Older(fish[i]));
    var born := seq(CountOf(fish, 0), _ => 8);
    assert Day(fish) == older + born;
    assert multiset(born)[8] == CountOf(fish, 0) by {
      assert born == seq(|born|, _ => 8);
      NewbornCount(CountOf(fish, 0));
    }
    forall t | 0 <= t < 9
      ensures Buckets(Day(fish))[t] == Age(Buckets(fish))[t]
    {
      OlderCounts(fish, t);
      assert multiset(older + born) == multiset(older) + multiset(born);
      if t != 8 {
        assert t !in multiset(born);
      }
    }
  }

  /** `n` new fish are `n` fish at 8. */
  lemma {:induction false} NewbornCount(n: nat)
    ensures multiset(seq(n, _ => 8))[8] == n
  {
    if n > 0 {
      NewbornCount(n - 1);
      assert seq(n, _ => 8) == seq(n - 1, _ => 8) + [8];
    }
  }

  lemma {:induction false} BucketsDays(fish: seq<nat>, n: nat)
    requires Timers(fish)
    ensures Timers(Days(fish, n))
    ensures Buckets(Days(fish, n)) == AgeDays(Buckets(fish), n)
    decreases n
  {
    if n > 0 {
      BucketsDay(fish);
      BucketsDays(Day(fish), n - 1);
    }
  }

  /** The buckets add up to the number of fish. */
  lemma {:induction false} SumBuckets(fish: seq<nat>)
    requires Timers(fish)
    ensures Sum(Buckets(fish)) == |fish|
    decreases |fish|
  {
    if |fish| == 0 {
      SumNine(Buckets(fish));
    } else {
      var init, x := fish[..|fish| - 1], fish[|fish| - 1];
      assert fish == init + [x];
      assert multiset(fish) == multiset(init) + multiset{x};
      SumBuckets(init);
      var c, d := Buckets(init), Buckets(fish);
      assert d == c[x := c[x] + 1];
      SumBump(c, x);
    }
  }

  /** Adding one to an entry adds one to the sum. */
  lemma {:induction false} SumBump(c: seq<nat>, x: nat)
    requires x < |c|
    ensures Sum(c[x := c[x] + 1]) == Sum(c) + 1
    decreases |c|
  {
    var d := c[x := c[x] + 1];
    if x > 0 {
      assert d[1..] == c[1..][x - 1 := c[x] + 1];
      SumBump(c[1..], x - 1);
    } else {
      assert d[1..] == c[1..];
    }
  }

  /** After `increment` the total grows by what bucket 0 held. */
  lemma AgeSum(c: seq<nat>)
    requires |c| == 9
    ensures Sum(Age(c)) == Sum(c) + c[0]
  {
    var a := Age(c);
    assert Sum(c) == c[0] + c[1] + c[2] + c[3] + c[4] + c[5] + c[6] + c[7] + c[8] by {
      SumNine(c);
    }
    assert Sum(a) == a[0] + a[1] + a[2] + a[3] + a[4] + a[5] + a[6] + a[7] + a[8] by {
      SumNine(a);
    }
  }

  lemma SumNine(c: seq<nat>)
    requires |c| == 9
    ensures Sum(c) == c[0] + c[1] + c[2] + c[3] + c[4] + c[5] + c[6] + c[7] + c[8]
  {
    forall k | 0 <= k < 9
      ensures Sum(c[k..]) == c[k] + Sum(c[k + 1..])
    {
      assert c[k..][1..] == c[k + 1..];
    }
    assert c[9..] == [] && c[0..] == c;
  }

  /** `m` days and then `n` more are `m + n` days. */
  lemma {:induction false} AgeDaysAdd(c: seq<nat>, m: nat, n: nat)
    requires |c| == 9
    ensures AgeDays(c, m + n) == AgeDays(AgeDays(c, m), n)
    decreases m
  {
    if m > 0 {
      AgeDaysAdd(Age(c), m - 1, n);
    }
  }

  /** The number of fish after `n` days is the sum of the aged buckets. */
  lemma SizeByBuckets(fish: seq<nat>, n: nat)
    requires Timers(fish)
    ensures |Days(fish, n)| == Sum(AgeDays(Buckets(fish), n))
  {
    BucketsDays(fish, n);
    SumBuckets(Days(fish, n));
  }

  /** The school only grows. */
  lemma {:induction false} DaysGrow(fish: seq<nat>, n: nat)
    ensures |Days(fish, n)| >= |fish|
    decreases n
  {
    if n > 0 {
      DaysGrow(Day(fish), n - 1);
    }
  }

  // ---------------------------------------------------------------
  // `LanternSchool`

  class School {
    /** `counts`: bucket `t` holds the number of fish at timer `t`. */
    var counts: array<nat>
    /** The fish the buckets stand for. */
    ghost var fish: seq<nat>

    ghost predicate Valid()
      reads this, counts
    {
      counts.Length == 9 && Timers(fish) && counts[..] == Buckets(fish)
    }

    /** `new`: nine empty buckets. */
    constructor ()
      ensures Valid() && fresh(counts) && fish == []
      ensures counts[..] == [0, 0, 0, 0, 0, 0, 0, 0, 0]
    {
      counts := new nat[9](_ => 0);
      fish := [];
      new;
      assert Buckets([]) == [0, 0, 0, 0, 0, 0, 0, 0, 0];
    }

    /** `increment`: the buckets are replaced by the aged ones, and the fish
        they stand for live one more day. */
    method Increment()
      requires Valid()
      modifies this
      ensures Valid() && fresh(counts)
      ensures counts[..] == Age(old(counts[..]))
      ensures fish == Day(old(fish))
    {
      var after := Aged(counts[..]);
      BucketsDay(fish);
      counts := after;
      fish := Day(fish);
    }

    /** The loop of `spawn_fish` that calls `increment` once a day. */
    method IncrementDays(days: nat)
      requires Valid()
      modifies this
      ensures Valid() && (days > 0 ==> fresh(counts))
      ensures fish == Days(old(fish), days)
    {
      ghost var start := fish;
      var d := 0;
      while d < days
        invariant 0 <= d <= days && Valid() && (d > 0 ==> fresh(counts))
        invariant Days(fish, days - d) == Days(start, days)
        modifies this
      {
        Increment();
        d := d + 1;
      }
    }

    /** The new buckets `increment` fills in from the old ones. */
    static method Aged(before: seq<nat>) returns (after: array<nat>)
      requires |before| == 9
      ensures fresh(after) && after[..] == Age(before)
    {
      after := new nat[9];
      after[8] := before[0];
      after[7] := before[8];
      after[6] := before[7] + before[0];
      after[5] := before[6];
      after[4] := before[5];
      after[3] := before[4];
      after[2] := before[3];
      after[1] := before[2];
      after[0] := before[1];
      forall i | 0 <= i < 9
        ensures after[i] == Age(before)[i]
      {
      }
    }

    /** `count`: the total over the buckets, which is the number of fish. */
    function Count(): (n: nat)
      reads this, counts
      requires Valid()
      ensures n == |fish|
    {
      SumBuckets(fish);
      Sum(counts[..])
    }

    /** `enroll`: one more fish at timer `t`; a timer above 8 is refused
        (the source panics) and changes nothing. */
    method Enroll(t: nat) returns (ok: bool)
      requires Valid()
      modifies this, counts
      ensures Valid() && counts == old(counts)
      ensures ok <==> t <= 8
      ensures ok ==> fish == old(fish) + [t] && counts[..] == old(counts[..])[t := old(counts[t]) + 1]
      ensures !ok ==> fish == old(fish) && counts[..] == old(counts[..])
    {
      if t > 8 {
        return false;
      }
      BucketsSnoc(fish, t);
      counts[t] := counts[t] + 1;
      fish := fish + [t];
      return true;
    }
  }

  /** One more fish at timer `t` adds one to bucket `t` only. */
  lemma BucketsSnoc(fish: seq<nat>, t: nat)
    requires t < 9
    ensures Buckets(fish + [t]) == Buckets(fish)[t := Buckets(fish)[t] + 1]
  {
    assert multiset(fish + [t]) == multiset(fish) + multiset{t};
  }

  // ---------------------------------------------------------------
  // `spawn_fish`

  /** The starting timers: the trimmed input split on commas, every piece
      a number (`u8`) that `enroll` accepts; `None` where the source
      panics. */
  function ReadSchool(input: string): (r: Option<seq<nat>>)
    ensures r.Some? ==> Timers(r.value)
  {
    ReadTimers(SplitOn(Trim(input), ","))
  }

  function ReadTimers(pieces: seq<string>): (r: Option<seq<nat>>)
    ensures r.Some? ==> Timers(r.value)
  {
    match ParseNats(pieces, 256)
    case None => None
    case Some(ns) => if Timers(ns) then Some(ns) else None
  }

  /** The pieces read one by one: the timers read so far come first. */
  ghost predicate ReadSoFar(pieces: seq<string>, fish: seq<nat>)
  {
    |fish| <= |pieces| && Timers(fish) &&
    forall k :: 0 <= k < |fish| ==> ParseNat(pieces[k]) == Some(fish[k])
  }

  /** Reading stops at the first piece that is not a timer: no school. */
  lemma ReadStops(pieces: seq<string>, fish: seq<nat>)
    requires ReadSoFar(pieces, fish) && |fish| < |pieces|
    requires ParseNat(pieces[|fish|]).None? || ParseNat(pieces[|fish|]).value > 8
    ensures ReadTimers(pieces) == None
  {
    ParseNatsMeaning(pieces, 256);
  }

  /** Every piece read: the school is the timers read. */
  lemma ReadDone(pieces: seq<string>, fish: seq<nat>)
    requires ReadSoFar(pieces, fish) && |fish| == |pieces|
    ensures ReadTimers(pieces) == Some(fish)
  {
    ParseNatsMeaning(pieces, 256);
    assert ParseNats(pieces, 256).value == fish;
  }

  /** `spawn_fish`: the number of fish after `days` days. */
  function Spawn(input: string, days: nat): Option<nat>
  {
    match ReadSchool(input)
    case None => None
    case Some(fish) => Some(|Days(fish, days)|)
  }

  /** `spawn_fish`: enroll every fish, let the days pass, count. */
  method SpawnFish(input: string, days: nat) returns (r: Option<nat>)
    ensures r == Spawn(input, days)
  {
    var pieces := SplitOn(Trim(input), ",");
    var school := new School();
    var i := 0;
    while i < |pieces|
      invariant 0 <= i <= |pieces| && school.Valid() && fresh(school.counts)
      invariant |school.fish| == i && ReadSoFar(pieces, school.fish)
    {
      var t := ParseNat(pieces[i]);
      if t.None? || t.value > 255 {
        ReadStops(pieces, school.fish);
        return None;
      }
      var ok := school.Enroll(t.value);
      if !ok {
        ReadStops(pieces, school.fish);
        return None;
      }
      i := i + 1;
    }
    ReadDone(pieces, school.fish);
    school.IncrementDays(days);
    r := Some(school.Count());
  }

  /** `spawn_fish` by the buckets: what the source computes is the number of
      fish the puzzle describes. */
  lemma SpawnByBuckets(input: string, days: nat)
    requires ReadSchool(input).Some?
    ensures Spawn(input, days) == Some(Sum(AgeDays(Buckets(ReadSchool(input).value), days)))
  {
    SizeByBuckets(ReadSchool(input).value, days);
  }

  // ---------------------------------------------------------------
  // Samples

  /** The bucket test: [3, 1, 1, 2, 1, 0, 0, 0, 0] becomes
      [1, 1, 2, 1, 0, 0, 3, 0, 3]. */
  lemma IncrementSample()
    ensures Age([3, 1, 1, 2, 1, 0, 0, 0, 0]) == [1, 1, 2, 1, 0, 0, 3, 0, 3]
  {
  }

  const SamplePieces: seq<string> := ["3", "4", "3", "1", "2"]
  const SampleFish: seq<nat> := [3, 4, 3, 1, 2]

  /** "3,4,3,1,2". */
  const Sample: string := Join(SamplePieces, ",")

  /** Timers written out and joined by commas read back as those timers. */
  lemma ReadWritten(fish: seq<nat>, pieces: seq<string>)
    requires |fish| == |pieces| > 0 && Timers(fish)
    requires forall k :: 0 <= k < |fish| ==> pieces[k] == NatToString(fish[k])
    ensures ReadSchool(Join(pieces, ",")) == Some(fish)
  {
    var text := Join(pieces, ",");
    JoinedNumbers(pieces, ',');
    TrimIdentity(text);
    WrittenNumbersRead(fish, pieces, ',', 256);
  }

  lemma SampleReads()
    ensures ReadSchool(Sample) == Some(SampleFish)
  {
    assert forall k :: 0 <= k < |SampleFish| ==> SamplePieces[k] == NatToString(SampleFish[k]);
    ReadWritten(SampleFish, SamplePieces);
  }

  lemma SampleBuckets()
    ensures Buckets(SampleFish) == [0, 1, 1, 2, 1, 0, 0, 0, 0]
  {
    assert Buckets([]) == [0, 0, 0, 0, 0, 0, 0, 0, 0];
    BucketsSnoc([], 3);
    assert [] + [3] == [3];
    BucketsSnoc([3], 4);
    BucketsSnoc([3, 4], 3);
    BucketsSnoc([3, 4, 3], 1);
    BucketsSnoc([3, 4, 3, 1], 2);
  }

  /** Eight days at once: each bucket is a sum of at most three of the
      buckets eight days earlier. */
  lemma AgeEight(c: seq<nat>)
    requires |c| == 9
    ensures AgeDays(c, 8) ==
      [c[1] + c[8], c[0] + c[2], c[1] + c[3], c[2] + c[4], c[3] + c[5], c[4] + c[6],
       c[0] + c[5] + c[7], c[6], c[0] + c[7]]
  {
    var c1 := Age(c);
    var c2 := Age(c1);
    var c3 := Age(c2);
    var c4 := Age(c3);
    var c5 := Age(c4);
    var c6 := Age(c5);
    var c7 := Age(c6);
    assert AgeDays(c7, 1) == Age(c7);
    assert AgeDays(c6, 2) == AgeDays(c7, 1);
    assert AgeDays(c5, 3) == AgeDays(c6, 2);
    assert AgeDays(c4, 4) == AgeDays(c5, 3);
    assert AgeDays(c3, 5) == AgeDays(c4, 4);
    assert AgeDays(c2, 6) == AgeDays(c3, 5);
    assert AgeDays(c1, 7) == AgeDays(c2, 6);
  }

  /** Eight more days after `m` days. */
  lemma EightMore(c: seq<nat>, m: nat, d: seq<nat>)
    requires |c| == 9 && AgeDays(c, m) == d
    ensures AgeDays(c, m + 8) == AgeDays(d, 8)
  {
    AgeDaysAdd(c, m, 8);
  }

  /** The sample's buckets from day 0 to day 32. */
  lemma Days0To32()
    ensures AgeDays([0, 1, 1, 2, 1, 0, 0, 0, 0], 32) == [5, 14, 10, 16, 11, 10, 12, 3, 7]
  {
    var start := [0, 1, 1, 2, 1, 0, 0, 0, 0];
    AgeEight(start);
    EightMore(start, 8, [1, 1, 3, 2, 2, 1, 0, 0, 0]);
    AgeEight([1, 1, 3, 2, 2, 1, 0, 0, 0]);
    EightMore(start, 16, [1, 4, 3, 5, 3, 2, 2, 0, 1]);
    AgeEight([1, 4, 3, 5, 3, 2, 2, 0, 1]);
    EightMore(start, 24, [5, 4, 9, 6, 7, 5, 3, 2, 1]);
    AgeEight([5, 4, 9, 6, 7, 5, 3, 2, 1]);
  }

  /** The sample's buckets from day 32 to day 64. */
  lemma Days32To64()
    ensures AgeDays([5, 14, 10, 16, 11, 10, 12, 3, 7], 32) == [100, 191, 139, 207, 180, 185, 240, 85, 140]
  {
    var start := [5, 14, 10, 16, 11, 10, 12, 3, 7];
    AgeEight(start);
    EightMore(start, 8, [21, 15, 30, 21, 26, 23, 18, 12, 8]);
    AgeEight([21, 15, 30, 21, 26, 23, 18, 12, 8]);
    EightMore(start, 16, [23, 51, 36, 56, 44, 44, 56, 18, 33]);
    AgeEight([23, 51, 36, 56, 44, 44, 56, 18, 33]);
    EightMore(start, 24, [84, 59, 107, 80, 100, 100, 85, 56, 41]);
    AgeEight([84, 59, 107, 80, 100, 100, 85, 56, 41]);
  }

  /** The sample's buckets from day 64 to day 96. */
  lemma Days64To96()
    ensures AgeDays([100, 191, 139, 207, 180, 185, 240, 85, 140], 32) == [1776, 2819, 2279, 3071, 3027, 3108, 4021, 1556, 2291]
  {
    var start := [100, 191, 139, 207, 180, 185, 240, 85, 140];
    AgeEight(start);
    EightMore(start, 8, [331, 239, 398, 319, 392, 420, 370, 240, 185]);
    AgeEight([331, 239, 398, 319, 392, 420, 370, 240, 185]);
    EightMore(start, 16, [424, 729, 558, 790, 739, 762, 991, 370, 571]);
    AgeEight([424, 729, 558, 790, 739, 762, 991, 370, 571]);
    EightMore(start, 24, [1300, 982, 1519, 1297, 1552, 1730, 1556, 991, 794]);
    AgeEight([1300, 982, 1519, 1297, 1552, 1730, 1556, 991, 794]);
  }

  /** The sample's buckets from day 96 to day 128. */
  lemma Days96To128()
    ensures AgeDays([1776, 2819, 2279, 3071, 3027, 3108, 4021, 1556, 2291], 32) == [30575, 43200, 38463, 47757, 50248, 51134, 64843, 26446, 36310]
  {
    var start := [1776, 2819, 2279, 3071, 3027, 3108, 4021, 1556, 2291];
    AgeEight(start);
    EightMore(start, 8, [5110, 4055, 5890, 5306, 6179, 7048, 6440, 4021, 3332]);
    AgeEight([5110, 4055, 5890, 5306, 6179, 7048, 6440, 4021, 3332]);
    EightMore(start, 16, [7387, 11000, 9361, 12069, 12354, 12619, 16179, 6440, 9131]);
    AgeEight([7387, 11000, 9361, 12069, 12354, 12619, 16179, 6440, 9131]);
    EightMore(start, 24, [20131, 16748, 23069, 21715, 24688, 28533, 26446, 16179, 13827]);
    AgeEight([20131, 16748, 23069, 21715, 24688, 28533, 26446, 16179, 13827]);
  }

  /** The sample's buckets from day 128 to day 160. */
  lemma Days128To160()
    ensures AgeDays([30575, 43200, 38463, 47757, 50248, 51134, 64843, 26446, 36310], 32) == [518022, 675135, 645359, 757209, 824797, 838154, 1037510, 441260, 574264]
  {
    var start := [30575, 43200, 38463, 47757, 50248, 51134, 64843, 26446, 36310];
    AgeEight(start);
    EightMore(start, 8, [79510, 69038, 90957, 88711, 98891, 115091, 108155, 64843, 57021]);
    AgeEight([79510, 69038, 90957, 88711, 98891, 115091, 108155, 64843, 57021]);
    EightMore(start, 16, [126059, 170467, 157749, 189848, 203802, 207046, 259444, 108155, 144353]);
    AgeEight([126059, 170467, 157749, 189848, 203802, 207046, 259444, 108155, 144353]);
    EightMore(start, 24, [314820, 283808, 360315, 361551, 396894, 463246, 441260, 259444, 234214]);
    AgeEight([314820, 283808, 360315, 361551, 396894, 463246, 441260, 259444, 234214]);
  }

  /** The sample's buckets from day 160 to day 192. */
  lemma Days160To192()
    ensures AgeDays([518022, 675135, 645359, 757209, 824797, 838154, 1037510, 441260, 574264], 32) == [8676299, 10678102, 10722200, 12129956, 13447679, 13733404, 16599547, 7312898, 9117868]
  {
    var start := [518022, 675135, 645359, 757209, 824797, 838154, 1037510, 441260, 574264];
    AgeEight(start);
    EightMore(start, 8, [1249399, 1163381, 1432344, 1470156, 1595363, 1862307, 1797436, 1037510, 959282]);
    AgeEight([1249399, 1163381, 1432344, 1470156, 1595363, 1862307, 1797436, 1037510, 959282]);
    EightMore(start, 16, [2122663, 2681743, 2633537, 3027707, 3332463, 3392799, 4149216, 1797436, 2286909]);
    AgeEight([2122663, 2681743, 2633537, 3027707, 3332463, 3392799, 4149216, 1797436, 2286909]);
    EightMore(start, 24, [4968652, 4756200, 5709450, 5966000, 6420506, 7481679, 7312898, 4149216, 3920099]);
    AgeEight([4968652, 4756200, 5709450, 5966000, 6420506, 7481679, 7312898, 4149216, 3920099]);
  }

  /** The sample's buckets from day 192 to day 224. */
  lemma Days192To224()
    ensures AgeDays([8676299, 10678102, 10722200, 12129956, 13447679, 13733404, 16599547, 7312898, 9117868], 32) == [144066371, 170274991, 176741557, 195532825, 218445331, 224953637, 266102136, 120696258, 145442288]
  {
    var start := [8676299, 10678102, 10722200, 12129956, 13447679, 13733404, 16599547, 7312898, 9117868];
    AgeEight(start);
    EightMore(start, 8, [19795970, 19398499, 22808058, 24169879, 25863360, 30047226, 29722601, 16599547, 15989197]);
    AgeEight([19795970, 19398499, 22808058, 24169879, 25863360, 30047226, 29722601, 16599547, 15989197]);
    EightMore(start, 16, [35387696, 42604028, 43568378, 48671418, 54217105, 55585961, 66442743, 29722601, 36395517]);
    AgeEight([35387696, 42604028, 43568378, 48671418, 54217105, 55585961, 66442743, 29722601, 36395517]);
    EightMore(start, 24, [78999545, 78956074, 91275446, 97785483, 104257379, 120659848, 120696258, 66442743, 65110297]);
    AgeEight([78999545, 78956074, 91275446, 97785483, 104257379, 120659848, 120696258, 66442743, 65110297]);
  }

  /** The sample's buckets from day 224 to day 256. */
  lemma Days224To256()
    ensures AgeDays([144066371, 170274991, 176741557, 195532825, 218445331, 224953637, 266102136, 120696258, 145442288], 32) == [2376852196, 2731163883, 2897294544, 3164316379, 3541830408, 3681986557, 4275812629, 1985489551, 2329711392]
  {
    var start := [144066371, 170274991, 176741557, 195532825, 218445331, 224953637, 266102136, 120696258, 145442288];
    AgeEight(start);
    EightMore(start, 8, [315717279, 320807928, 365807816, 395186888, 420486462, 484547467, 489716266, 266102136, 264762629]);
    AgeEight([315717279, 320807928, 365807816, 395186888, 420486462, 484547467, 489716266, 266102136, 264762629]);
    EightMore(start, 16, [585570557, 681525095, 715994816, 786294278, 879734355, 910202728, 1066366882, 489716266, 581819415]);
    AgeEight([585570557, 681525095, 715994816, 786294278, 879734355, 910202728, 1066366882, 489716266, 581819415]);
    EightMore(start, 24, [1263344510, 1301565373, 1467819373, 1595729171, 1696497006, 1946101237, 1985489551, 1066366882, 1075286823]);
    AgeEight([1263344510, 1301565373, 1467819373, 1595729171, 1696497006, 1946101237, 1985489551, 1066366882, 1075286823]);
  }

  /** The sample's buckets after 18 days. */
  lemma Days18()
    ensures AgeDays([0, 1, 1, 2, 1, 0, 0, 0, 0], 18) == [3, 5, 3, 2, 2, 1, 5, 1, 4]
  {
    var start := [0, 1, 1, 2, 1, 0, 0, 0, 0];
    AgeEight(start);
    EightMore(start, 8, [1, 1, 3, 2, 2, 1, 0, 0, 0]);
    AgeEight([1, 1, 3, 2, 2, 1, 0, 0, 0]);
    AgeDaysAdd(start, 16, 2);
    assert AgeDays([4, 3, 5, 3, 2, 2, 1, 1, 1], 1) == [3, 5, 3, 2, 2, 1, 5, 1, 4];
    assert AgeDays([1, 4, 3, 5, 3, 2, 2, 0, 1], 2) == AgeDays([4, 3, 5, 3, 2, 2, 1, 1, 1], 1);
  }

  /** The sample's buckets after 80 days. */
  lemma Days80()
    ensures AgeDays([0, 1, 1, 2, 1, 0, 0, 0, 0], 80) == [424, 729, 558, 790, 739, 762, 991, 370, 571]
  {
    var start := [0, 1, 1, 2, 1, 0, 0, 0, 0];
    Days0To32();
    Days32To64();
    AgeDaysAdd(start, 32, 32);
    AgeEight([100, 191, 139, 207, 180, 185, 240, 85, 140]);
    EightMore([100, 191, 139, 207, 180, 185, 240, 85, 140], 8, [331, 239, 398, 319, 392, 420, 370, 240, 185]);
    AgeEight([331, 239, 398, 319, 392, 420, 370, 240, 185]);
    AgeDaysAdd(start, 64, 16);
  }

  /** The sample's buckets from day 0 to day 128. */
  lemma Days0To128()
    ensures AgeDays([0, 1, 1, 2, 1, 0, 0, 0, 0], 128) == [30575, 43200, 38463, 47757, 50248, 51134, 64843, 26446, 36310]
  {
    var start := [0, 1, 1, 2, 1, 0, 0, 0, 0];
    Days0To32();
    Days32To64();
    Days64To96();
    Days96To128();
    AgeDaysAdd(start, 32, 32);
    AgeDaysAdd(start, 64, 32);
    AgeDaysAdd(start, 96, 32);
  }

  /** The sample's buckets from day 128 to day 256. */
  lemma Days128To256()
    ensures AgeDays([30575, 43200, 38463, 47757, 50248, 51134, 64843, 26446, 36310], 128) == [2376852196, 2731163883, 2897294544, 3164316379, 3541830408, 3681986557, 4275812629, 1985489551, 2329711392]
  {
    var start := [30575, 43200, 38463, 47757, 50248, 51134, 64843, 26446, 36310];
    Days128To160();
    Days160To192();
    Days192To224();
    Days224To256();
    AgeDaysAdd(start, 32, 32);
    AgeDaysAdd(start, 64, 32);
    AgeDaysAdd(start, 96, 32);
  }

  /** The sample's buckets after 256 days. */
  lemma Days256()
    ensures AgeDays([0, 1, 1, 2, 1, 0, 0, 0, 0], 256) == [2376852196, 2731163883, 2897294544, 3164316379, 3541830408, 3681986557, 4275812629, 1985489551, 2329711392]
  {
    Days0To128();
    Days128To256();
    AgeDaysAdd([0, 1, 1, 2, 1, 0, 0, 0, 0], 128, 128);
  }

  /** `spawn_fish` on the sample: 26 fish after 18 days. */
  lemma SpawnSample()
    ensures Spawn(Sample, 18) == Some(26)
  {
    SampleReads();
    SampleBuckets();
    SpawnByBuckets(Sample, 18);
    Days18();
    SumNine([3, 5, 3, 2, 2, 1, 5, 1, 4]);
  }

  /** `part_one` on the sample: 5934 fish after 80 days. */
  lemma PartOneSample()
    ensures Spawn(Sample, 80) == Some(5934)
  {
    SampleReads();
    SampleBuckets();
    SpawnByBuckets(Sample, 80);
    Days80();
    SumNine([424, 729, 558, 790, 739, 762, 991, 370, 571]);
  }

  /** `part_two` on the sample: 26984457539 fish after 256 days. */
  lemma PartTwoSample()
    ensures Spawn(Sample, 256) == Some(26984457539)
  {
    SampleReads();
    SampleBuckets();
    SpawnByBuckets(Sample, 256);
    Days256();
    SumNine([2376852196, 2731163883, 2897294544, 3164316379, 3541830408, 3681986557, 4275812629, 1985489551, 2329711392]);
  }
}

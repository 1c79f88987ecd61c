/** Day 3 of 2022, "Rucksack Reorganization": every item type (a letter)
    has a priority; each rucksack (a line) has two equal compartments that
    share one item type, and each group of three elves shares one badge
    item. */
module Rucksacks {
  import opened Wrappers
  import opened Strings

  predicate IsUpper(c: char) { 'A' <= c <= 'Z' }

  predicate IsLower(c: char) { 'a' <= c <= 'z' }

  /** The characters `get_priority` handles without its `u32` subtraction
      going below zero: upper-case letters, and everything from '`' on. */
  predicate HasPriority(c: char) { IsUpper(c) || c as int >= 96 }

  /** `get_priority` on a character it does not panic on. */
  function Priority(c: char): (p: nat)
    requires HasPriority(c)
    ensures IsLower(c) ==> p == c as int - 'a' as int + 1
    ensures IsUpper(c) ==> p == c as int - 'A' as int + 27
  {
    if IsUpper(c) then c as int - 64 + 26 else c as int - 96
  }

  /** Lower-case letters have priorities 1 to 26, upper-case ones 27 to
      52. */
  lemma PriorityRanges(c: char)
    requires IsLower(c) || IsUpper(c)
    ensures HasPriority(c)
    ensures IsLower(c) <==> 1 <= Priority(c) <= 26
    ensures IsUpper(c) <==> 27 <= Priority(c) <= 52
  {
  }

  /** Distinct letters have distinct priorities. */
  lemma PriorityInjective(c: char, d: char)
    requires (IsLower(c) || IsUpper(c)) && (IsLower(d) || IsUpper(d))
    requires Priority(c) == Priority(d)
    ensures c == d
  {
  }

  /** Every priority from 1 to 52 belongs to a letter. */
  lemma PriorityOnto(p: nat)
    requires 1 <= p <= 52
    ensures exists c: char :: (IsLower(c) || IsUpper(c)) && Priority(c) == p
  {
    if p <= 26 {
      var c := (96 + p) as char;
      assert IsLower(c) && Priority(c) == p;
    } else {
      var c := (38 + p) as char;
      assert IsUpper(c) && Priority(c) == p;
    }
  }

  /** The item types in a rucksack, or in part of one. */
  function Items(s: string): set<char>
  {
    set i | 0 <= i < |s| :: s[i]
  }

  lemma ItemsOfThree(s: string)
    requires |s| == 3
    ensures Items(s) == {s[0], s[1], s[2]}
  {
    assert s[0] in Items(s) && s[1] in Items(s) && s[2] in Items(s);
  }

  /** The item types found in both halves of a rucksack: the first
      `|line| / 2` characters and the rest. */
  function Shared(line: string): set<char>
  {
    var n := |line| / 2;
    Items(line[..n]) * Items(line[n..])
  }

  /** Every item type the two halves share has a priority. */
  ghost predicate SharedPriced(line: string)
  {
    forall c :: c in Shared(line) ==> HasPriority(c)
  }

  /** `get_priority_of_line`: the priority of an item type the two halves
      share; `None` where the source panics, because they share none or
      because `get_priority` underflows on the shared item. Where they
      share several the source takes whichever its hash set yields first,
      so the model only says it is one of them. */
  ghost function LinePriority(line: string): (r: Option<nat>)
    ensures Shared(line) == {} ==> r.None?
    ensures Shared(line) != {} && SharedPriced(line) ==> r.Some?
    ensures r.Some? ==> exists c :: c in Shared(line) && HasPriority(c) && r.value == Priority(c)
    ensures r.None? && Shared(line) != {} ==> exists c :: c in Shared(line) && !HasPriority(c)
  {
    if Shared(line) == {} then None
    else
      var c :| c in Shared(line);
      if HasPriority(c) then Some(Priority(c)) else None
  }

  /** When the halves share exactly one item type, as the puzzle promises,
      the line's priority is that item's, and the source panics when it
      has none. */
  lemma LinePriorityOfOne(line: string, c: char)
    requires Shared(line) == {c}
    ensures HasPriority(c) ==> LinePriority(line) == Some(Priority(c))
    ensures !HasPriority(c) ==> LinePriority(line) == None
  {
  }

  /** Only the shared item needs a priority: in "1aba" the halves "1a" and
      "ba" share 'a', so the '1' the source never looks up does not
      matter; in "1a1b" they share '1', on which `get_priority` panics. */
  lemma LinePriorityOfOthers()
    ensures LinePriority("1aba") == Some(1)
    ensures LinePriority("1a1b") == None
  {
    var s := "1aba";
    assert s[..2] == "1a" && s[2..] == "ba";
    assert Items("1a") == {'1', 'a'} by {
      assert "1a"[0] == '1' && "1a"[1] == 'a';
    }
    assert Items("ba") == {'b', 'a'} by {
      assert "ba"[0] == 'b' && "ba"[1] == 'a';
    }
    assert Shared(s) == {'a'};
    LinePriorityOfOne(s, 'a');
    var t := "1a1b";
    assert t[..2] == "1a" && t[2..] == "1b";
    assert Items("1b") == {'1', 'b'} by {
      assert "1b"[0] == '1' && "1b"[1] == 'b';
    }
    assert Shared(t) == {'1'};
    LinePriorityOfOne(t, '1');
  }

  /** The source's own examples: "abcdae" gives 1 and "AbcdAe" gives 27. */
  lemma LinePriorityExamples()
    ensures LinePriority("abcdae") == Some(1)
    ensures LinePriority("AbcdAe") == Some(27)
  {
    var s := "abcdae";
    assert s[..3] == "abc" && s[3..] == "dae";
    ItemsOfThree("abc");
    ItemsOfThree("dae");
    assert Shared(s) == {'a'};
    LinePriorityOfOne(s, 'a');
    var t := "AbcdAe";
    assert t[..3] == "Abc" && t[3..] == "dAe";
    ItemsOfThree("Abc");
    ItemsOfThree("dAe");
    assert Shared(t) == {'A'};
    LinePriorityOfOne(t, 'A');
  }

  /** The priorities of the lines added up; `None` if any line panics. */
  ghost function LinesPriority(lines: seq<string>): (r: Option<nat>)
    decreases |lines|
  {
    if |lines| == 0 then Some(0)
    else match (LinePriority(lines[0]), LinesPriority(lines[1..]))
      case (Some(p), Some(q)) => Some(p + q)
      case _ => None
  }

  /** The sum succeeds exactly when no line panics, and is at least each
      line's priority. */
  lemma {:induction false} LinesPriorityMeaning(lines: seq<string>)
    ensures LinesPriority(lines).Some? <==> forall k :: 0 <= k < |lines| ==> LinePriority(lines[k]).Some?
    ensures LinesPriority(lines).Some? ==>
      forall k :: 0 <= k < |lines| ==> LinePriority(lines[k]).value <= LinesPriority(lines).value
    decreases |lines|
  {
    if |lines| > 0 {
      var rest := lines[1..];
      assert forall k :: 1 <= k < |lines| ==> lines[k] == rest[k - 1];
      LinesPriorityMeaning(rest);
    }
  }

  /** Rucksacks read one after another add up. */
  lemma {:induction false} LinesPriorityAppend(a: seq<string>, b: seq<string>)
    requires LinesPriority(a).Some? && LinesPriority(b).Some?
    ensures LinesPriority(a + b) == Some(LinesPriority(a).value + LinesPriority(b).value)
    decreases |a|
  {
    if |a| == 0 {
      assert a + b == b;
    } else {
      assert (a + b)[1..] == a[1..] + b;
      LinesPriorityAppend(a[1..], b);
    }
  }

  /** `part_one`. */
  ghost function PartOne(input: string): Option<nat>
  {
    LinesPriority(Lines(input))
  }

  // ---------------------------------------------------------------
  // Badges of groups of three

  /** The sum of the priorities of a set of item types. */
  ghost function SetSum(s: set<char>): nat
    requires forall c :: c in s ==> HasPriority(c)
    decreases |s|
  {
    if s == {} then 0
    else
      var c :| c in s;
      Priority(c) + SetSum(s - {c})
  }

  /** The sum does not depend on which item is taken first. */
  lemma {:induction false} SetSumRemove(s: set<char>, d: char)
    requires forall c :: c in s ==> HasPriority(c)
    requires d in s
    ensures SetSum(s) == Priority(d) + SetSum(s - {d})
    decreases |s|
  {
    var c :| c in s && SetSum(s) == Priority(c) + SetSum(s - {c});
    if c != d {
      SetSumRemove(s - {c}, d);
      SetSumRemove(s - {d}, c);
      assert s - {c} - {d} == s - {d} - {c};
    }
  }

  /** The item types all three rucksacks of a group hold. */
  function Badges(a: string, b: string, c: string): set<char>
  {
    Items(a) * Items(b) * Items(c)
  }

  /** Every badge of a group has a priority. */
  ghost predicate BadgesPriced(a: string, b: string, c: string)
  {
    forall d :: d in Badges(a, b, c) ==> HasPriority(d)
  }

  /** Every badge of the first `g` complete groups has a priority: the
      source does not panic on those groups. */
  ghost predicate GroupsPriced(lines: seq<string>, g: nat)
    requires 3 * g <= |lines|
  {
    forall j :: 0 <= j < g ==> BadgesPriced(lines[3 * j], lines[3 * j + 1], lines[3 * j + 2])
  }

  /** The badge priorities of the first `g` complete groups of lines. */
  ghost function GroupsTotal(lines: seq<string>, g: nat): nat
    requires 3 * g <= |lines| && GroupsPriced(lines, g)
  {
    if g == 0 then 0
    else
      var i := 3 * (g - 1);
      assert BadgesPriced(lines[i], lines[i + 1], lines[i + 2]);
      GroupsTotal(lines, g - 1) + SetSum(Badges(lines[i], lines[i + 1], lines[i + 2]))
  }

  /** When every group shares exactly one badge, as the puzzle promises,
      each group adds that badge's priority. */
  lemma OneBadge(a: string, b: string, c: string, d: char)
    requires Badges(a, b, c) == {d} && HasPriority(d)
    ensures SetSum(Badges(a, b, c)) == Priority(d)
  {
    SetSumRemove({d}, d);
    assert {d} - {d} == {};
  }

  /** Lines after the last complete group add nothing. */
  lemma {:induction false} GroupsTotalPrefix(lines: seq<string>, more: seq<string>, g: nat)
    requires 3 * g <= |lines| && GroupsPriced(lines, g)
    ensures GroupsPriced(lines + more, g)
    ensures GroupsTotal(lines + more, g) == GroupsTotal(lines, g)
    decreases g
  {
    assert forall k :: 0 <= k < |lines| ==> (lines + more)[k] == lines[k];
    if g > 0 {
      GroupsTotalPrefix(lines, more, g - 1);
    }
  }

  /** A final group of one or two rucksacks contributes nothing, whatever
      it holds. */
  lemma IncompleteGroupIgnored(lines: seq<string>, more: seq<string>)
    requires |lines| % 3 == 0 && |more| < 3 && GroupsPriced(lines, |lines| / 3)
    ensures GroupsPriced(lines + more, |lines + more| / 3)
    ensures GroupsTotal(lines + more, |lines + more| / 3) == GroupsTotal(lines, |lines| / 3)
  {
    GroupsTotalPrefix(lines, more, |lines| / 3);
  }

  // ---------------------------------------------------------------
  // `part_two`, step by step

  /** The count a map holds for an item type, zero when absent. */
  function Get(counts: map<char, nat>, c: char): nat
  {
    if c in counts then counts[c] else 0
  }

  /** How many rucksacks of a group hold item type `c`. */
  function Count(group: seq<string>, c: char): (n: nat)
    ensures n <= |group|
    decreases |group|
  {
    if |group| == 0 then 0
    else Count(group[..|group| - 1], c) + (if c in Items(group[|group| - 1]) then 1 else 0)
  }

  /** Three rucksacks count an item three times exactly when all of them
      hold it. */
  lemma CountThree(a: string, b: string, c: string, d: char)
    ensures Count([a, b, c], d) == 3 <==> d in Badges(a, b, c)
  {
    assert [a, b, c][..2] == [a, b];
    assert [a, b][..1] == [a];
    assert [a][..0] == [];
    assert Count([a], d) == if d in Items(a) then 1 else 0;
    assert Count([a, b], d) == Count([a], d) + if d in Items(b) then 1 else 0;
    assert Count([a, b, c], d) == Count([a, b], d) + if d in Items(c) then 1 else 0;
  }

  /** The inner loop of `part_two` over the item types of one line:
      each counted once more. */
  method CountItems(counts: map<char, nat>, items: set<char>) returns (r: map<char, nat>)
    ensures forall c :: Get(r, c) == Get(counts, c) + (if c in items then 1 else 0)
  {
    r := counts;
    var todo := items;
    while todo != {}
      invariant todo <= items
      invariant forall c :: Get(r, c) == Get(counts, c) + (if c in items && c !in todo then 1 else 0)
      decreases |todo|
    {
      var c :| c in todo;
      r := r[c := Get(r, c) + 1];
      todo := todo - {c};
    }
  }

  /** The item types a map counts three times. */
  function Threes(counts: map<char, nat>): set<char>
  {
    set c | c in counts && counts[c] == 3
  }

  lemma ThreesStep(counts: map<char, nat>, todo: set<char>, c: char)
    requires c in todo && todo <= counts.Keys
    ensures Threes(counts) - (todo - {c}) ==
      if counts[c] == 3 then (Threes(counts) - todo) + {c} else Threes(counts) - todo
  {
  }

  /** The loop over the counts at the end of a group: the priorities of
      the item types counted three times, added up; `None` where
      `get_priority` panics on one of them. */
  method SumThrees(counts: map<char, nat>) returns (total: Option<nat>)
    ensures total.Some? <==> forall c :: c in Threes(counts) ==> HasPriority(c)
    ensures total.Some? ==> total.value == SetSum(Threes(counts))
  {
    var sum := 0;
    var todo := counts.Keys;
    ghost var done: set<char> := {};
    while todo != {}
      invariant todo <= counts.Keys && done == Threes(counts) - todo
      invariant forall c :: c in done ==> HasPriority(c)
      invariant sum == SetSum(done)
      decreases |todo|
    {
      var c :| c in todo;
      ghost var next := if counts[c] == 3 then done + {c} else done;
      ThreesStep(counts, todo, c);
      if counts[c] == 3 {
        if !HasPriority(c) {
          assert c in Threes(counts);
          return None;
        }
        SetSumRemove(next, c);
        assert next - {c} == done;
        sum := sum + Priority(c);
      }
      todo := todo - {c};
      done := next;
    }
    assert done == Threes(counts);
    total := Some(sum);
  }

  /** Adding a line to the group adds its item types to the counts. */
  lemma CountStep(lines: seq<string>, lo: nat, i: nat, d: char)
    requires lo <= i < |lines|
    ensures Count(lines[lo..i + 1], d) == Count(lines[lo..i], d) + (if d in Items(lines[i]) then 1 else 0)
  {
    assert lines[lo..i + 1][..i - lo] == lines[lo..i];
  }

  /** Counts of a complete group single out its badges. */
  lemma ThreesAreBadges(counts: map<char, nat>, lines: seq<string>, i: nat)
    requires 2 <= i < |lines|
    requires forall d :: Get(counts, d) == Count(lines[i - 2..i + 1], d)
    ensures Threes(counts) == Badges(lines[i - 2], lines[i - 1], lines[i])
  {
    assert lines[i - 2..i + 1] == [lines[i - 2], lines[i - 1], lines[i]];
    forall d ensures d in Threes(counts) <==> d in Badges(lines[i - 2], lines[i - 1], lines[i]) {
      assert d in Threes(counts) <==> Get(counts, d) == 3;
      CountThree(lines[i - 2], lines[i - 1], lines[i], d);
    }
  }

  /** One more complete group, whose badges all have priorities, adds
      them. */
  lemma GroupsTotalStep(lines: seq<string>, g: nat)
    requires 3 * g + 3 <= |lines| && GroupsPriced(lines, g)
    requires BadgesPriced(lines[3 * g], lines[3 * g + 1], lines[3 * g + 2])
    ensures GroupsPriced(lines, g + 1)
    ensures GroupsTotal(lines, g + 1) == GroupsTotal(lines, g) + SetSum(Badges(lines[3 * g], lines[3 * g + 1], lines[3 * g + 2]))
  {
  }

  /** `counts` holds, for every item type, how many rucksacks of `group`
      hold it. */
  predicate Counted(counts: map<char, nat>, group: seq<string>)
  {
    forall d :: Get(counts, d) == Count(group, d)
  }

  /** One line of a group counted: the counts of the group so far become
      those of the group with this line. */
  method CountLine(counts: map<char, nat>, lines: seq<string>, lo: nat, i: nat) returns (r: map<char, nat>)
    requires lo <= i < |lines|
    requires Counted(counts, lines[lo..i])
    ensures Counted(r, lines[lo..i + 1])
  {
    r := CountItems(counts, Items(lines[i]));
    forall d ensures Get(r, d) == Count(lines[lo..i + 1], d) {
      CountStep(lines, lo, i, d);
    }
  }

  /** The end of a group: the priorities of the item types all three
      lines hold, added up; `None` where one of them has no priority. */
  method SettleGroup(counts: map<char, nat>, lines: seq<string>, ghost g: nat) returns (t: Option<nat>)
    requires 3 * g + 3 <= |lines| && GroupsPriced(lines, g)
    requires Counted(counts, lines[3 * g..3 * g + 3])
    ensures t.Some? <==> GroupsPriced(lines, g + 1)
    ensures t.Some? ==> GroupsTotal(lines, g + 1) == GroupsTotal(lines, g) + t.value
  {
    ThreesAreBadges(counts, lines, 3 * g + 2);
    t := SumThrees(counts);
    if t.Some? {
      GroupsTotalStep(lines, g);
    }
  }

  /** The loop of `part_two`: the lines taken three at a time, each
      line's item types counted once, and at the end of each group the
      priorities of those counted three times added to the result. */
  method SumBadges(lines: seq<string>) returns (res: Option<nat>)
    ensures res.Some? <==> GroupsPriced(lines, |lines| / 3)
    ensures res.Some? ==> res.value == GroupsTotal(lines, |lines| / 3)
  {
    var sum := 0;
    var c := 0;
    var counts: map<char, nat> := map[];
    var i := 0;
    ghost var g: nat := 0;
    while i < |lines|
      invariant 0 <= i <= |lines| && 0 <= c < 3 && i == 3 * g + c
      invariant GroupsPriced(lines, g) && sum == GroupsTotal(lines, g)
      invariant Counted(counts, lines[i - c..i])
    {
      counts := CountLine(counts, lines, i - c, i);
      c := c + 1;
      if c == 3 {
        var t := SettleGroup(counts, lines, g);
        if t.None? {
          GroupsPricedPrefix(lines, g + 1, |lines| / 3);
          return None;
        }
        sum := sum + t.value;
        c := 0;
        g := g + 1;
        counts := map[];
      }
      i := i + 1;
    }
    res := Some(sum);
  }

  /** A group that panics makes every longer run of groups panic. */
  lemma GroupsPricedPrefix(lines: seq<string>, g: nat, n: nat)
    requires g <= n && 3 * n <= |lines| && !GroupsPriced(lines, g)
    ensures !GroupsPriced(lines, n)
  {
  }

  /** `part_two`. */
  method PartTwo(input: string) returns (res: Option<nat>)
    ensures res.Some? <==> GroupsPriced(Lines(input), |Lines(input)| / 3)
    ensures res.Some? ==> res.value == GroupsTotal(Lines(input), |Lines(input)| / 3)
  {
    res := SumBadges(Lines(input));
  }
}

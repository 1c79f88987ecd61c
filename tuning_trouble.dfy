/** Day 6 of 2022, "Tuning Trouble": the start of a packet (or message) is
    the first place in the datastream where the last `size` characters are
    all different. */
module TuningTrouble {

  /** No character occurs twice. */
  predicate Distinct(s: string)
  {
    forall a, b :: 0 <= a < b < |s| ==> s[a] != s[b]
  }

  /** The characters of `s`, as `iter().unique()` collects them. */
  function Chars(s: string): set<char>
  {
    if |s| == 0 then {} else Chars(s[..|s| - 1]) + {s[|s| - 1]}
  }

  /** The collected characters are those of the string. */
  lemma {:induction false} CharsOf(s: string)
    ensures forall c :: c in Chars(s) <==> c in s
  {
    if |s| > 0 {
      CharsOf(s[..|s| - 1]);
      assert s == s[..|s| - 1] + [s[|s| - 1]];
    }
  }

  /** `iter().unique().count()` is never more than the length, and equals it
      exactly when no character repeats. */
  lemma {:induction false} UniqueCount(s: string)
    ensures |Chars(s)| <= |s|
    ensures |Chars(s)| == |s| <==> Distinct(s)
  {
    if |s| > 0 {
      var init := s[..|s| - 1];
      UniqueCount(init);
      if s[|s| - 1] in init {
        RepeatedLast(s);
      } else {
        FreshLast(s);
      }
    }
  }

  /** A last character seen before adds nothing and breaks distinctness. */
  lemma RepeatedLast(s: string)
    requires |s| > 0 && s[|s| - 1] in s[..|s| - 1]
    ensures Chars(s) == Chars(s[..|s| - 1]) && !Distinct(s)
  {
    var init, last := s[..|s| - 1], s[|s| - 1];
    CharsOf(init);
    assert Chars(s) == Chars(init);
    var a :| 0 <= a < |init| && init[a] == last;
    assert s[a] == s[|s| - 1];
  }

  /** A new last character adds one and keeps distinctness as it was. */
  lemma FreshLast(s: string)
    requires |s| > 0 && s[|s| - 1] !in s[..|s| - 1]
    ensures |Chars(s)| == |Chars(s[..|s| - 1])| + 1
    ensures Distinct(s) <==> Distinct(s[..|s| - 1])
  {
    var init := s[..|s| - 1];
    CharsOf(init);
    assert |Chars(s)| == |Chars(init)| + 1;
    if Distinct(init) {
      forall a, b | 0 <= a < b < |s| ensures s[a] != s[b] {
        if b < |s| - 1 {
          assert s[a] == init[a] && s[b] == init[b];
        } else {
          assert s[a] == init[a];
        }
      }
    } else {
      var a, b :| 0 <= a < b < |init| && init[a] == init[b];
      assert s[a] == s[b];
    }
  }

  /** The datastream's characters `i + 1 - size` through `i` exist and are
      all different. A window of no characters never counts: the source
      pushes a character before it compares, so its window is never empty. */
  predicate MarkerAt(input: string, size: nat, i: nat)
  {
    1 <= size <= i + 1 <= |input| && Distinct(input[i + 1 - size..i + 1])
  }

  /** The first marker at or after position `from`: one more than its
      position, or 0 when there is none. */
  function Search(input: string, size: nat, from: nat): (r: nat)
    ensures r == 0 ==> forall j :: from <= j < |input| ==> !MarkerAt(input, size, j)
    ensures r > 0 ==> from < r <= |input| && MarkerAt(input, size, r - 1)
    ensures r > 0 ==> forall j :: from <= j < r - 1 ==> !MarkerAt(input, size, j)
    decreases |input| - from
  {
    if from >= |input| then 0
    else if MarkerAt(input, size, from) then from + 1
    else Search(input, size, from + 1)
  }

  /** One step of the search. */
  lemma SearchStep(input: string, size: nat, i: nat)
    requires i < |input|
    ensures Search(input, size, i) == if MarkerAt(input, size, i) then i + 1 else Search(input, size, i + 1)
  {
  }

  /** What `find_marker` returns. */
  function Marker(input: string, size: nat): nat
  {
    Search(input, size, 0)
  }

  /** `deque.pop_front()`, which leaves an empty deque alone. */
  function PopFront(window: string): (r: string)
    ensures |window| > 0 ==> r == window[1..]
    ensures |window| == 0 ==> r == window
  {
    if |window| == 0 then window else window[1..]
  }

  /** The deque after `i` characters: the last `size` of them, or all of
      them while there are fewer, or all of them when `size` is 0. */
  predicate WindowAfter(input: string, size: nat, i: nat, window: string)
  {
    i <= |input| &&
    |window| == (if 1 <= size <= i then size else i) &&
    window == input[i - |window|..i]
  }

  /** One step of the loop: drop the oldest character of a full window,
      append the next one, and compare the count of different characters
      with `size`. */
  lemma Slide(input: string, size: nat, i: nat, before: string, after: string)
    requires i < |input| && WindowAfter(input, size, i, before)
    requires after == (if |before| == size then PopFront(before) else before) + [input[i]]
    ensures WindowAfter(input, size, i + 1, after)
    ensures |Chars(after)| == size <==> MarkerAt(input, size, i)
  {
    var lo := i - |before|;
    if |before| == size && size > 0 {
      assert after == input[lo + 1..i + 1];
    } else {
      assert after == input[lo..i + 1];
    }
    UniqueCount(after);
    if size >= 1 && |after| == size {
      assert after == input[i + 1 - size..i + 1];
    }
  }

  /** `find_marker`: a window of at most `size` characters slides along the
      datastream, and the first time it holds `size` different characters
      the position after it is returned; 0 when that never happens. */
  method FindMarker(input: string, size: nat) returns (r: nat)
    ensures r == Marker(input, size)
  {
    var window := "";
    var i := 0;
    while i < |input|
      invariant 0 <= i <= |input|
      invariant WindowAfter(input, size, i, window)
      invariant Search(input, size, i) == Marker(input, size)
    {
      var before := window;
      if |window| == size {
        window := PopFront(window);
      }
      window := window + [input[i]];
      Slide(input, size, i, before, window);
      SearchStep(input, size, i);
      if |Chars(window)| == size {
        return i + 1;
      }
      i := i + 1;
    }
    return 0;
  }

  /** `part_one`: the start-of-packet marker, four different characters. */
  method PartOne(input: string) returns (r: nat)
    ensures r == Marker(input, 4)
  {
    r := FindMarker(input, 4);
  }

  /** `part_two`: the start-of-message marker, fourteen different
      characters. */
  method PartTwo(input: string) returns (r: nat)
    ensures r == Marker(input, 14)
  {
    r := FindMarker(input, 14);
  }

  // ---------------------------------------------------------------
  // Properties

  /** The answer is 0 exactly when no position is a marker; otherwise it is
      one past the first marker, which needs at least `size` characters
      before it. */
  lemma MarkerMeaning(input: string, size: nat)
    ensures Marker(input, size) == 0 <==> forall j :: 0 <= j < |input| ==> !MarkerAt(input, size, j)
    ensures Marker(input, size) > 0 ==> size <= Marker(input, size) <= |input|
    ensures Marker(input, size) > 0 ==> MarkerAt(input, size, Marker(input, size) - 1)
  {
  }

  /** With a window of no characters there is never a marker. */
  lemma NoEmptyMarker(input: string)
    ensures Marker(input, 0) == 0
  {
  }

  /** A datastream shorter than the window has no marker. */
  lemma ShortStreamNoMarker(input: string, size: nat)
    requires |input| < size
    ensures Marker(input, size) == 0
  {
  }

  /** Characters after a marker do not move it. */
  lemma {:induction false} MarkerKept(input: string, more: string, size: nat, from: nat)
    requires Search(input, size, from) > 0
    ensures Search(input + more, size, from) == Search(input, size, from)
    decreases |input| - from
  {
    var i := from;
    assert (input + more)[..|input|] == input;
    if MarkerAt(input, size, i) {
      assert (input + more)[i + 1 - size..i + 1] == input[i + 1 - size..i + 1];
    } else {
      if i + 1 <= |input| && 1 <= size <= i + 1 {
        assert (input + more)[i + 1 - size..i + 1] == input[i + 1 - size..i + 1];
      }
      MarkerKept(input, more, size, from + 1);
    }
  }

  // ---------------------------------------------------------------
  // The samples

  /** A repeated character inside the window rules a position out. */
  lemma Repeat(input: string, size: nat, i: nat, a: nat, b: nat)
    requires 1 <= size <= i + 1 <= |input|
    requires i + 1 - size <= a < b <= i && input[a] == input[b]
    ensures !MarkerAt(input, size, i)
  {
    var w := input[i + 1 - size..i + 1];
    assert w[a - (i + 1 - size)] == w[b - (i + 1 - size)];
  }

  /** Four different characters make a start-of-packet marker. */
  lemma FourDifferent(input: string, i: nat)
    requires 4 <= i + 1 <= |input|
    requires input[i - 3] != input[i - 2] && input[i - 3] != input[i - 1] && input[i - 3] != input[i]
    requires input[i - 2] != input[i - 1] && input[i - 2] != input[i] && input[i - 1] != input[i]
    ensures MarkerAt(input, 4, i)
  {
    var w := input[i - 3..i + 1];
    assert w[0] == input[i - 3] && w[1] == input[i - 2] && w[2] == input[i - 1] && w[3] == input[i];
  }

  /** A marker with none before it is the answer. */
  lemma FirstMarker(input: string, size: nat, r: nat)
    requires 1 <= r <= |input| && MarkerAt(input, size, r - 1)
    requires forall j :: 0 <= j < r - 1 ==> !MarkerAt(input, size, j)
    ensures Marker(input, size) == r
  {
  }

  lemma HeadOne()
    ensures Marker("mjqjpqm", 4) == 7
  {
    var h := "mjqjpqm";
    Repeat(h, 4, 3, 1, 3);
    Repeat(h, 4, 4, 1, 3);
    Repeat(h, 4, 5, 2, 5);
    FourDifferent(h, 6);
    FirstMarker(h, 4, 7);
  }

  /** "mjqjpqmgbljsphdztnvjfqwrcgsmlb", split after its marker. */
  const StreamOne: string := "mjqjpqm" + "gbljsphdztnvjfqwrcgsmlb"

  lemma SampleOne()
    ensures Marker(StreamOne, 4) == 7
  {
    HeadOne();
    MarkerKept("mjqjpqm", "gbljsphdztnvjfqwrcgsmlb", 4, 0);
  }

  lemma HeadTwo()
    ensures Marker("bvwbj", 4) == 5
  {
    var h := "bvwbj";
    Repeat(h, 4, 3, 0, 3);
    FourDifferent(h, 4);
    FirstMarker(h, 4, 5);
  }

  /** "bvwbjplbgvbhsrlpgdmjqwftvncz", split after its marker. */
  const StreamTwo: string := "bvwbj" + "plbgvbhsrlpgdmjqwftvncz"

  lemma SampleTwo()
    ensures Marker(StreamTwo, 4) == 5
  {
    HeadTwo();
    MarkerKept("bvwbj", "plbgvbhsrlpgdmjqwftvncz", 4, 0);
  }

  lemma HeadThree()
    ensures Marker("nznrnfrfnt", 4) == 10
  {
    var h := "nznrnfrfnt";
    Repeat(h, 4, 3, 0, 2);
    Repeat(h, 4, 4, 2, 4);
    Repeat(h, 4, 5, 2, 4);
    Repeat(h, 4, 6, 3, 6);
    Repeat(h, 4, 7, 5, 7);
    Repeat(h, 4, 8, 5, 7);
    FourDifferent(h, 9);
    FirstMarker(h, 4, 10);
  }

  /** "nznrnfrfntjfmvfwmzdfjlvtqnbhcprsg", split after its marker. */
  const StreamThree: string := "nznrnfrfnt" + "jfmvfwmzdfjlvtqnbhcprsg"

  lemma SampleThree()
    ensures Marker(StreamThree, 4) == 10
  {
    HeadThree();
    MarkerKept("nznrnfrfnt", "jfmvfwmzdfjlvtqnbhcprsg", 4, 0);
  }

  lemma HeadFour()
    ensures Marker("zcfzfwzzqfr", 4) == 11
  {
    var h := "zcfzfwzzqfr";
    Repeat(h, 4, 3, 0, 3);
    Repeat(h, 4, 4, 2, 4);
    Repeat(h, 4, 5, 2, 4);
    Repeat(h, 4, 6, 3, 6);
    Repeat(h, 4, 7, 6, 7);
    Repeat(h, 4, 8, 6, 7);
    Repeat(h, 4, 9, 6, 7);
    FourDifferent(h, 10);
    FirstMarker(h, 4, 11);
  }

  /** "zcfzfwzzqfrljwzlrfnpqdbhtmscgvjw", split after its marker. */
  const StreamFour: string := "zcfzfwzzqfr" + "ljwzlrfnpqdbhtmscgvjw"

  lemma SampleFour()
    ensures Marker(StreamFour, 4) == 11
  {
    HeadFour();
    MarkerKept("zcfzfwzzqfr", "ljwzlrfnpqdbhtmscgvjw", 4, 0);
  }

}

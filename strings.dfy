/** The parts of Rust's `str` API the solvers use to read their input:
    `split`, `split_once`, `lines`, `trim` and `parse` of integers.
    Strings are sequences of `char`; no Unicode case or whitespace tables. */
module Strings {
  import opened Wrappers

  predicate IsDigit(c: char) { '0' <= c <= '9' }

  /** ASCII whitespace as `char::is_whitespace` sees it. */
  predicate IsSpace(c: char) { c == ' ' || c == '\t' || c == '\n' || c == '\r' || c == '\U{B}' || c == '\U{C}' }

  predicate StartsWith(s: string, pat: string) { |pat| <= |s| && s[..|pat|] == pat }

  predicate EndsWith(s: string, pat: string) { |pat| <= |s| && s[|s| - |pat|..] == pat }

  /** `s.split(pat)`: the pieces between the non-overlapping occurrences of
      `pat`, found from left to right. There is always at least one piece. */
  function SplitOn(s: string, pat: string): (parts: seq<string>)
    requires |pat| > 0
    ensures |parts| >= 1
    decreases |s|
  {
    if |s| < |pat| then [s]
    else if s[..|pat|] == pat then [""] + SplitOn(s[|pat|..], pat)
    else
      var rest := SplitOn(s[1..], pat);
      [[s[0]] + rest[0]] + rest[1..]
  }

  /** The inverse of `SplitOn`: the pieces glued back with `pat`. */
  function Join(parts: seq<string>, pat: string): string
    requires |parts| >= 1
    decreases |parts|
  {
    if |parts| == 1 then parts[0] else parts[0] + pat + Join(parts[1..], pat)
  }

  lemma {:induction false} SplitOnJoin(s: string, pat: string)
    requires |pat| > 0
    ensures Join(SplitOn(s, pat), pat) == s
    decreases |s|
  {
    if |s| < |pat| {
    } else if s[..|pat|] == pat {
      SplitOnJoin(s[|pat|..], pat);
      SplitOnJoinAtPat(s, pat);
    } else {
      SplitOnJoin(s[1..], pat);
      SplitOnJoinPastChar(s, pat);
    }
  }

  /** `SplitOnJoin` where `s` starts with the separator. */
  lemma SplitOnJoinAtPat(s: string, pat: string)
    requires 0 < |pat| <= |s| && s[..|pat|] == pat
    requires Join(SplitOn(s[|pat|..], pat), pat) == s[|pat|..]
    ensures Join(SplitOn(s, pat), pat) == s
  {
    var tail := s[|pat|..];
    var rest := SplitOn(tail, pat);
    var parts := [""] + rest;
    assert SplitOn(s, pat) == parts;
    assert parts[1..] == rest;
    calc {
      Join(parts, pat);
      parts[0] + pat + Join(parts[1..], pat);
      [] + pat + tail;
      { assert [] + pat == pat; }
      pat + tail;
      { assert s == s[..|pat|] + tail; }
      s;
    }
  }

  /** `SplitOnJoin` where `s` does not start with the separator. */
  lemma SplitOnJoinPastChar(s: string, pat: string)
    requires 0 < |pat| <= |s| && s[..|pat|] != pat
    requires Join(SplitOn(s[1..], pat), pat) == s[1..]
    ensures Join(SplitOn(s, pat), pat) == s
  {
    var rest := SplitOn(s[1..], pat);
    assert SplitOn(s, pat) == [[s[0]] + rest[0]] + rest[1..];
    JoinConsFirst(s[0], rest, pat);
    assert [s[0]] + s[1..] == s;
  }

  /** Prefixing the first piece prefixes the joined text. */
  lemma JoinConsFirst(c: char, rest: seq<string>, pat: string)
    requires |rest| >= 1
    ensures Join([[c] + rest[0]] + rest[1..], pat) == [c] + Join(rest, pat)
  {
    var parts := [[c] + rest[0]] + rest[1..];
    if |rest| > 1 {
      assert parts[1..] == rest[1..];
    }
  }

  /** Splitting text that holds no copy of the separator's first
      character: such text is a single piece, and the separator after it
      ends the first piece. */
  lemma {:induction false} SplitOnSep(a: string, pat: string, b: string)
    requires |pat| > 0 && pat[0] !in a
    ensures SplitOn(a, pat) == [a]
    ensures SplitOn(a + pat + b, pat) == [a] + SplitOn(b, pat)
    decreases |a|
  {
    if |a| > 0 {
      SplitOnSep(a[1..], pat, b);
      assert (a + pat + b)[1..] == a[1..] + pat + b;
      assert [a[0]] + a[1..] == a;
      assert (a + pat + b)[0] == a[0] != pat[0];
    } else {
      assert a + pat + b == pat + b;
      assert (pat + b)[..|pat|] == pat && (pat + b)[|pat|..] == b;
    }
  }

  /** Joining pieces free of the separator's first character and
      splitting again gives back the pieces. */
  lemma {:induction false} SplitOnJoinFree(parts: seq<string>, pat: string)
    requires |parts| >= 1 && |pat| > 0
    requires forall i :: 0 <= i < |parts| ==> pat[0] !in parts[i]
    ensures SplitOn(Join(parts, pat), pat) == parts
    decreases |parts|
  {
    if |parts| == 1 {
      SplitOnSep(parts[0], pat, "");
    } else {
      var rest := parts[1..];
      forall i | 0 <= i < |rest| ensures pat[0] !in rest[i] {
        assert rest[i] == parts[i + 1];
      }
      SplitOnJoinFree(rest, pat);
      assert Join(parts, pat) == parts[0] + pat + Join(rest, pat);
      SplitOnSep(parts[0], pat, Join(rest, pat));
      assert [parts[0]] + rest == parts;
    }
  }

  /** No occurrence of `pat` starts inside `a`, even one running on into a
      `pat` written after it. */
  predicate Clean(a: string, pat: string)
  {
    forall j :: 0 <= j < |a| ==> !MatchesAt(a + pat, pat, j)
  }

  /** An occurrence of `pat` in `t` starts at `j`. */
  predicate MatchesAt(t: string, pat: string, j: nat)
  {
    j + |pat| <= |t| && t[j..j + |pat|] == pat
  }

  /** Text in which no occurrence of the separator starts is one piece, and
      the separator after it ends the first piece. */
  lemma {:induction false} SplitOnClean(a: string, pat: string, c: string)
    requires |pat| > 0 && Clean(a, pat)
    ensures SplitOn(a + pat + c, pat) == [a] + SplitOn(c, pat)
    decreases |a|
  {
    var t := a + pat + c;
    if |a| == 0 {
      assert t == pat + c;
      assert t[..|pat|] == pat && t[|pat|..] == c;
    } else {
      assert !MatchesAt(a + pat, pat, 0);
      assert t[..|pat|] == (a + pat)[..|pat|];
      var a' := a[1..];
      forall j | 0 <= j < |a'| ensures !MatchesAt(a' + pat, pat, j) {
        assert !MatchesAt(a + pat, pat, j + 1);
        assert a' + pat == (a + pat)[1..];
      }
      SplitOnClean(a', pat, c);
      assert t[1..] == a' + pat + c;
      assert [t[0]] + a' == a;
    }
  }

  lemma {:induction false} SplitOnCleanLast(a: string, pat: string)
    requires |pat| > 0 && Clean(a, pat)
    ensures SplitOn(a, pat) == [a]
    decreases |a|
  {
    if |a| >= |pat| {
      assert !MatchesAt(a + pat, pat, 0);
      assert a[..|pat|] == (a + pat)[..|pat|];
      var a' := a[1..];
      forall j | 0 <= j < |a'| ensures !MatchesAt(a' + pat, pat, j) {
        assert !MatchesAt(a + pat, pat, j + 1);
        assert a' + pat == (a + pat)[1..];
      }
      SplitOnCleanLast(a', pat);
      assert [a[0]] + a' == a;
    }
  }

  /** Joining clean pieces and splitting again gives back the pieces. */
  lemma {:induction false} SplitOnJoinClean(parts: seq<string>, pat: string)
    requires |parts| >= 1 && |pat| > 0
    requires forall k :: 0 <= k < |parts| ==> Clean(parts[k], pat)
    ensures SplitOn(Join(parts, pat), pat) == parts
    decreases |parts|
  {
    if |parts| == 1 {
      SplitOnCleanLast(parts[0], pat);
    } else {
      var rest := parts[1..];
      forall k | 0 <= k < |rest| ensures Clean(rest[k], pat) {
        assert rest[k] == parts[k + 1];
      }
      SplitOnJoinClean(rest, pat);
      SplitOnClean(parts[0], pat, Join(rest, pat));
      assert [parts[0]] + rest == parts;
    }
  }

  /** `s.split_once(pat)`: the text before and after the first occurrence. */
  function SplitOnce(s: string, pat: string): (r: Option<(string, string)>)
    requires |pat| > 0
    ensures r.Some? ==> s == r.value.0 + pat + r.value.1
    ensures r.None? <==> |SplitOn(s, pat)| == 1
  {
    var parts := SplitOn(s, pat);
    SplitOnJoin(s, pat);
    if |parts| == 1 then None else Some((parts[0], Join(parts[1..], pat)))
  }

  /** Text with no separator before the first one splits there. */
  lemma SplitOnceAt(a: string, pat: string, b: string)
    requires |pat| > 0 && pat[0] !in a
    ensures SplitOnce(a + pat + b, pat) == Some((a, b))
  {
    SplitOnSep(a, pat, b);
    SplitOnJoin(b, pat);
  }

  /** Text without the separator does not split. */
  lemma SplitOnceNone(s: string, pat: string)
    requires |pat| > 0 && pat[0] !in s
    ensures SplitOnce(s, pat) == None
  {
    SplitOnSep(s, pat, "");
  }

  /** `s.lines()`: pieces between newlines, a final empty piece dropped.
      A carriage return before a newline is kept. */
  function Lines(s: string): (ls: seq<string>)
  {
    DropFinalEmpty(SplitOn(s, "\n"))
  }

  function DropFinalEmpty(parts: seq<string>): seq<string>
    requires |parts| >= 1
  {
    if parts[|parts| - 1] == "" then parts[..|parts| - 1] else parts
  }

  /** Text written as lines ended by newlines, or with the last newline
      left off, reads back as those lines. */
  lemma LinesOfJoin(ls: seq<string>)
    requires |ls| >= 1 && ls[|ls| - 1] != ""
    requires forall i :: 0 <= i < |ls| ==> '\n' !in ls[i]
    ensures Lines(Join(ls, "\n")) == ls
  {
    SplitOnJoinFree(ls, "\n");
  }

  /** Joining one more piece appends the separator and that piece. */
  lemma {:induction false} JoinSnoc(parts: seq<string>, x: string, pat: string)
    requires |parts| >= 1
    ensures Join(parts + [x], pat) == Join(parts, pat) + pat + x
    decreases |parts|
  {
    if |parts| > 1 {
      assert (parts + [x])[1..] == parts[1..] + [x];
      JoinSnoc(parts[1..], x, pat);
    }
  }

  /** The first character of joined pieces is the first piece's, the last
      the last piece's. */
  lemma {:induction false} JoinEnds(parts: seq<string>, pat: string)
    requires |parts| >= 1 && forall k :: 0 <= k < |parts| ==> |parts[k]| > 0
    ensures var t := Join(parts, pat); |t| > 0 && t[0] == parts[0][0] && t[|t| - 1] == parts[|parts| - 1][|parts[|parts| - 1]| - 1]
    decreases |parts|
  {
    if |parts| > 1 {
      var rest := parts[1..];
      forall k | 0 <= k < |rest| ensures |rest[k]| > 0 {
        assert rest[k] == parts[k + 1];
      }
      JoinEnds(rest, pat);
      assert Join(parts, pat) == parts[0] + pat + Join(rest, pat);
    }
  }

  /** A character in neither the pieces nor the separator is not in the
      joined text. */
  lemma {:induction false} JoinFree(parts: seq<string>, pat: string, c: char)
    requires |parts| >= 1 && c !in pat && forall k :: 0 <= k < |parts| ==> c !in parts[k]
    ensures c !in Join(parts, pat)
    decreases |parts|
  {
    if |parts| > 1 {
      var rest := parts[1..];
      forall k | 0 <= k < |rest| ensures c !in rest[k] {
        assert rest[k] == parts[k + 1];
      }
      JoinFree(rest, pat, c);
    }
  }

  /** Lines each ended by a newline read back as those lines. */
  lemma LinesOfText(ls: seq<string>)
    requires |ls| >= 1 && ls[|ls| - 1] != ""
    requires forall i :: 0 <= i < |ls| ==> '\n' !in ls[i]
    ensures Lines(Join(ls, "\n") + "\n") == ls
  {
    JoinSnoc(ls, "", "\n");
    assert Join(ls, "\n") + "\n" == Join(ls, "\n") + "\n" + "";
    SplitOnJoinFree(ls + [""], "\n");
    assert (ls + [""])[..|ls|] == ls;
  }

  function TrimStart(s: string): (t: string)
    ensures |t| <= |s| && t == s[|s| - |t|..]
    ensures |t| > 0 ==> !IsSpace(t[0])
  {
    if |s| > 0 && IsSpace(s[0]) then TrimStart(s[1..]) else s
  }

  function TrimEnd(s: string): (t: string)
    ensures |t| <= |s| && t == s[..|t|]
    ensures |t| > 0 ==> !IsSpace(t[|t| - 1])
  {
    if |s| > 0 && IsSpace(s[|s| - 1]) then TrimEnd(s[..|s| - 1]) else s
  }

  /** `s.trim()`. */
  function Trim(s: string): string { TrimEnd(TrimStart(s)) }

  /** Text that neither starts nor ends with whitespace is its own trim. */
  lemma TrimIdentity(s: string)
    requires |s| > 0 && !IsSpace(s[0]) && !IsSpace(s[|s| - 1])
    ensures Trim(s) == s
  {
  }

  /** Spaces around trimmed text are trimmed away. */
  lemma TrimPadded(s: string)
    requires |s| > 0 && !IsSpace(s[0]) && !IsSpace(s[|s| - 1])
    ensures Trim(" " + s) == s && Trim(s + " ") == s
  {
    var a, b := " " + s, s + " ";
    assert a[1..] == s && TrimStart(s) == s;
    assert b[0] == s[0] && TrimStart(b) == b;
    assert b[..|b| - 1] == s && TrimEnd(s) == s;
  }

  /** A line with its newline, trimmed, is the bare line. */
  lemma TrimLine(s: string)
    requires |s| > 0 && !IsSpace(s[0]) && !IsSpace(s[|s| - 1])
    ensures Trim(s + "\n") == s
  {
    var t := s + "\n";
    assert t[0] == s[0];
    assert TrimStart(t) == t;
    assert t[|t| - 1] == '\n';
    assert t[..|t| - 1] == s;
    assert TrimEnd(s) == s;
  }

  predicate AllDigits(s: string) { forall i :: 0 <= i < |s| ==> IsDigit(s[i]) }

  /** The value of a non-empty run of decimal digits. */
  function DigitsValue(s: string): nat
    requires AllDigits(s)
    decreases |s|
  {
    if |s| == 0 then 0 else 10 * DigitsValue(s[..|s| - 1]) + (s[|s| - 1] as int - '0' as int)
  }

  function ParseDigits(s: string): Option<nat>
  {
    if |s| > 0 && AllDigits(s) then Some(DigitsValue(s)) else None
  }

  /** The digits of an unsigned `parse`: an optional `+`, then at least one
      digit. The width limit is added by `ParseU32` and `ParseUSize`. */
  function ParseNat(s: string): (r: Option<nat>)
    ensures r.Some? ==> |s| > 0
  {
    if |s| > 0 && s[0] == '+' then ParseDigits(s[1..]) else ParseDigits(s)
  }

  /** One more than the largest `u32`. */
  const U32Limit: nat := 0x1_0000_0000

  /** One more than the largest `usize` of a 64-bit target (also `u64`). */
  const USizeLimit: nat := 0x1_0000_0000_0000_0000

  /** An unsigned `parse` into a type whose values lie below `limit`: a
      larger number is an error like text that is not a number. */
  function ParseBelow(s: string, limit: nat): (r: Option<nat>)
    ensures r.Some? ==> r.value < limit && ParseNat(s) == r
    ensures ParseNat(s).Some? && ParseNat(s).value < limit ==> r == ParseNat(s)
  {
    match ParseNat(s)
    case Some(n) => if n < limit then Some(n) else None
    case None => None
  }

  /** `s.parse::<u32>()`. */
  function ParseU32(s: string): (r: Option<nat>)
    ensures r.Some? ==> r.value < U32Limit && ParseNat(s) == r
    ensures ParseNat(s).Some? && ParseNat(s).value < U32Limit ==> r == ParseNat(s)
  {
    ParseBelow(s, U32Limit)
  }

  /** `s.parse::<usize>()` (also `u64`). */
  function ParseUSize(s: string): (r: Option<nat>)
    ensures r.Some? ==> r.value < USizeLimit && ParseNat(s) == r
    ensures ParseNat(s).Some? && ParseNat(s).value < USizeLimit ==> r == ParseNat(s)
  {
    ParseBelow(s, USizeLimit)
  }

  /** `s.parse::<i32>()` (also `i64`): an optional sign, then digits. */
  function ParseInt(s: string): (r: Option<int>)
    ensures r.Some? ==> |s| > 0
  {
    if |s| > 0 && s[0] == '-' then
      match ParseDigits(s[1..])
      case Some(n) => Some(-(n as int))
      case None => None
    else
      match ParseNat(s)
      case Some(n) => Some(n)
      case None => None
  }

  const I32Min: int := -0x8000_0000
  const I32Limit: int := 0x8000_0000

  /** `s.parse::<i32>()`: `ParseInt` within the 32-bit range. */
  function ParseI32(s: string): (r: Option<int>)
    ensures r.Some? ==> I32Min <= r.value < I32Limit
  {
    match ParseInt(s)
    case Some(n) => if I32Min <= n < I32Limit then Some(n) else None
    case None => None
  }

  const I64Min: int := -0x8000_0000_0000_0000
  const I64Limit: int := 0x8000_0000_0000_0000

  /** `s.parse::<i64>()`: `ParseInt` within the 64-bit range. */
  function ParseI64(s: string): (r: Option<int>)
    ensures r.Some? ==> I64Min <= r.value < I64Limit
  {
    match ParseInt(s)
    case Some(n) => if I64Min <= n < I64Limit then Some(n) else None
    case None => None
  }

  function DigitChar(d: nat): (c: char)
    requires d < 10
    ensures IsDigit(c) && c as int - '0' as int == d
  {
    ('0' as int + d) as char
  }

  /** Decimal rendering of a natural number, as `to_string` writes it. */
  function NatToString(n: nat): (s: string)
    ensures |s| > 0 && AllDigits(s)
  {
    if n < 10 then [DigitChar(n)] else NatToString(n / 10) + [DigitChar(n % 10)]
  }

  lemma {:induction false} ParseNatToString(n: nat)
    ensures ParseNat(NatToString(n)) == Some(n)
  {
    var s := NatToString(n);
    assert s[0] != '+';
    ValueOfNatToString(n);
  }

  lemma {:induction false} ValueOfNatToString(n: nat)
    ensures DigitsValue(NatToString(n)) == n
  {
    var s := NatToString(n);
    if n < 10 {
      assert s[..0] == [];
    } else {
      ValueOfNatToString(n / 10);
      assert s[..|s| - 1] == NatToString(n / 10);
    }
  }

  /** Decimal rendering of an integer, a minus sign before negatives. */
  function IntText(n: int): (s: string)
    ensures |s| > 0 && (s[0] == '-' || IsDigit(s[0])) && IsDigit(s[|s| - 1])
    ensures forall i :: 0 < i < |s| ==> IsDigit(s[i])
  {
    if n < 0 then "-" + NatToString(-n) else NatToString(n)
  }

  /** `to_string` of an integer parses back. */
  lemma ParseIntText(n: int)
    ensures ParseInt(IntText(n)) == Some(n)
  {
    var s := NatToString(if n < 0 then -n else n);
    ParseNatToString(if n < 0 then -n else n);
    assert IsDigit(s[0]);
    if n < 0 {
      assert IntText(n)[1..] == s;
    }
  }

  /** An integer within the 32-bit range, written, reads back as `i32`. */
  lemma ParseI32Text(n: int)
    requires I32Min <= n < I32Limit
    ensures ParseI32(IntText(n)) == Some(n)
  {
    ParseIntText(n);
  }

  /** An integer within the 64-bit range, written, reads back as `i64`. */
  lemma ParseI64Text(n: int)
    requires I64Min <= n < I64Limit
    ensures ParseI64(IntText(n)) == Some(n)
  {
    ParseIntText(n);
  }

  /** Each number written in decimal. */
  function WriteNats(nums: seq<nat>): (r: seq<string>)
    ensures |r| == |nums| && forall k :: 0 <= k < |nums| ==> r[k] == NatToString(nums[k])
  {
    seq(|nums|, k requires 0 <= k < |nums| => NatToString(nums[k]))
  }

  /** Every piece read as a number below `limit` (the width of the parsed
      type), as `map(parse).collect()` followed by `expect`: `None` at the
      first piece that is not such a number. */
  function ParseNats(pieces: seq<string>, limit: nat): (r: Option<seq<nat>>)
    ensures r.Some? ==> |r.value| == |pieces|
    decreases |pieces|
  {
    if |pieces| == 0 then Some([])
    else match ParseBelow(pieces[0], limit)
      case None => None
      case Some(n) =>
        match ParseNats(pieces[1..], limit)
        case None => None
        case Some(ns) => Some([n] + ns)
  }

  /** `ParseNats` succeeds exactly when every piece is a number below the
      limit, and then reads each piece in place. */
  lemma {:induction false} ParseNatsMeaning(pieces: seq<string>, limit: nat)
    ensures ParseNats(pieces, limit).Some? <==> forall k :: 0 <= k < |pieces| ==> ParseBelow(pieces[k], limit).Some?
    ensures ParseNats(pieces, limit).Some? ==>
      forall k :: 0 <= k < |pieces| ==> ParseNats(pieces, limit).value[k] == ParseNat(pieces[k]).value
    decreases |pieces|
  {
    if |pieces| > 0 {
      var rest := pieces[1..];
      ParseNatsMeaning(rest, limit);
      if ParseBelow(pieces[0], limit).Some? && ParseNats(rest, limit).Some? {
        forall k | 1 <= k < |pieces|
          ensures ParseNats(pieces, limit).value[k] == ParseNat(pieces[k]).value
        {
          assert pieces[k] == rest[k - 1];
        }
      }
      if ParseNats(pieces, limit).Some? {
        forall k | 0 <= k < |pieces| ensures ParseBelow(pieces[k], limit).Some? {
          if k > 0 {
            assert pieces[k] == rest[k - 1];
          }
        }
      } else if ParseBelow(pieces[0], limit).Some? {
        var k :| 0 <= k < |rest| && ParseBelow(rest[k], limit).None?;
        assert pieces[k + 1] == rest[k];
      }
    }
  }

  /** Numbers written out and joined by a separator that is not a digit:
      the text starts and ends with a digit, and every other character is
      the separator, followed by a digit. */
  lemma {:induction false} JoinedNumbers(pieces: seq<string>, sep: char)
    requires |pieces| > 0 && !IsDigit(sep)
    requires forall k :: 0 <= k < |pieces| ==> |pieces[k]| > 0 && AllDigits(pieces[k])
    ensures var t := Join(pieces, [sep]);
      |t| > 0 && IsDigit(t[0]) && IsDigit(t[|t| - 1]) &&
      forall j :: 0 <= j < |t| && !IsDigit(t[j]) ==> t[j] == sep && j + 1 < |t| && IsDigit(t[j + 1])
    decreases |pieces|
  {
    if |pieces| > 1 {
      var rest := pieces[1..];
      forall k | 0 <= k < |rest| ensures |rest[k]| > 0 && AllDigits(rest[k]) {
        assert rest[k] == pieces[k + 1];
      }
      JoinedNumbers(rest, sep);
      var p, r := pieces[0], Join(rest, [sep]);
      var t := Join(pieces, [sep]);
      assert t == p + [sep] + r;
      forall j | 0 <= j < |t|
        ensures IsDigit(t[j]) || (t[j] == sep && j + 1 < |t| && IsDigit(t[j + 1]))
      {
        if j > |p| {
          assert t[j] == r[j - |p| - 1];
          if !IsDigit(t[j]) {
            assert t[j + 1] == r[j - |p|];
          }
        } else if j < |p| {
          assert t[j] == p[j];
        }
      }
    }
  }

  /** Numbers joined by one separator hold no doubled separator. */
  lemma JoinedNumbersClean(pieces: seq<string>, sep: char)
    requires |pieces| > 0 && !IsDigit(sep)
    requires forall k :: 0 <= k < |pieces| ==> |pieces[k]| > 0 && AllDigits(pieces[k])
    ensures Clean(Join(pieces, [sep]), [sep, sep])
  {
    var t := Join(pieces, [sep]);
    JoinedNumbers(pieces, sep);
    var u := t + [sep, sep];
    forall j | 0 <= j < |t| ensures !MatchesAt(u, [sep, sep], j) {
      assert u[j..j + 2][0] == u[j] == t[j];
      if !IsDigit(t[j]) {
        assert u[j..j + 2][1] == u[j + 1] == t[j + 1];
      }
    }
  }

  /** Numbers below `limit` written out and joined by a separator read
      back, one by one, as the numbers. */
  lemma WrittenNumbersRead(nums: seq<nat>, pieces: seq<string>, sep: char, limit: nat)
    requires |nums| == |pieces| > 0 && !IsDigit(sep)
    requires forall k :: 0 <= k < |nums| ==> pieces[k] == NatToString(nums[k]) && nums[k] < limit
    ensures SplitOn(Join(pieces, [sep]), [sep]) == pieces
    ensures ParseNats(pieces, limit) == Some(nums)
  {
    forall k | 0 <= k < |pieces| ensures [sep][0] !in pieces[k] && ParseNat(pieces[k]) == Some(nums[k]) {
      ParseNatToString(nums[k]);
      var t := pieces[k];
      assert forall j :: 0 <= j < |t| ==> IsDigit(t[j]);
    }
    SplitOnJoinFree(pieces, [sep]);
    ParseNatsMeaning(pieces, limit);
    var r := ParseNats(pieces, limit).value;
    assert r == nums;
  }

  /** `input::get_lines_of_type`: each line read by `parse`; lines it
      rejects are skipped. */
  function ParseEach<T>(lines: seq<string>, parse: string -> Option<T>): (r: seq<T>)
    ensures |r| <= |lines|
    decreases |lines|
  {
    if |lines| == 0 then []
    else match parse(lines[0])
      case Some(t) => [t] + ParseEach(lines[1..], parse)
      case None => ParseEach(lines[1..], parse)
  }

  /** When every line parses, the result has one item per line, in order. */
  lemma {:induction false} ParseEachAll<T>(lines: seq<string>, parse: string -> Option<T>)
    requires forall i :: 0 <= i < |lines| ==> parse(lines[i]).Some?
    ensures |ParseEach(lines, parse)| == |lines|
    ensures forall i :: 0 <= i < |lines| ==> ParseEach(lines, parse)[i] == parse(lines[i]).value
    decreases |lines|
  {
    if |lines| > 0 {
      var rest := lines[1..];
      forall i | 0 <= i < |rest| ensures parse(rest[i]).Some? {
        assert rest[i] == lines[i + 1];
      }
      ParseEachAll(rest, parse);
      forall i | 1 <= i < |lines| ensures ParseEach(lines, parse)[i] == parse(lines[i]).value {
        assert lines[i] == rest[i - 1];
      }
    }
  }

  /** Every item comes from some line, and lines are never reordered: the
      items of a prefix of the lines are a prefix of the items. */
  lemma {:induction false} ParseEachAppend<T>(a: seq<string>, b: seq<string>, parse: string -> Option<T>)
    ensures ParseEach(a + b, parse) == ParseEach(a, parse) + ParseEach(b, parse)
    decreases |a|
  {
    if |a| > 0 {
      assert (a + b)[1..] == a[1..] + b;
      ParseEachAppend(a[1..], b, parse);
    } else {
      assert a + b == b;
    }
  }

  /** A line `parse` rejects is skipped: the result is as if the line were
      not there. */
  lemma ParseEachSkips<T>(a: seq<string>, line: string, b: seq<string>, parse: string -> Option<T>)
    requires parse(line).None?
    ensures ParseEach(a + [line] + b, parse) == ParseEach(a + b, parse)
  {
    ParseEachAppend(a + [line], b, parse);
    ParseEachAppend(a, [line], parse);
    ParseEachAppend(a, b, parse);
    assert ParseEach([line], parse) == [];
  }

  /** Every line read by `parse`, for a parser that panics instead of
      failing: one line it rejects makes the whole reading `None`. */
  function ReadEvery<T>(lines: seq<string>, parse: string -> Option<T>): (r: Option<seq<T>>)
    ensures r.Some? ==> |r.value| == |lines|
    decreases |lines|
  {
    if |lines| == 0 then Some([])
    else
      match ReadEvery(lines[..|lines| - 1], parse)
      case None => None
      case Some(ts) =>
        match parse(lines[|lines| - 1])
        case None => None
        case Some(t) => Some(ts + [t])
  }

  /** Reading succeeds exactly when every line parses, and then holds each
      line's item in place. */
  lemma {:induction false} ReadEveryMeaning<T>(lines: seq<string>, parse: string -> Option<T>)
    ensures ReadEvery(lines, parse).Some? <==> forall k :: 0 <= k < |lines| ==> parse(lines[k]).Some?
    ensures ReadEvery(lines, parse).Some? ==>
      forall k :: 0 <= k < |lines| ==> ReadEvery(lines, parse).value[k] == parse(lines[k]).value
    decreases |lines|
  {
    if |lines| > 0 {
      var init := lines[..|lines| - 1];
      ReadEveryMeaning(init, parse);
      assert forall k :: 0 <= k < |init| ==> init[k] == lines[k];
    }
  }

  /** Reading one more line extends the items read so far, or fails. */
  lemma ReadEveryStep<T>(lines: seq<string>, j: nat, parse: string -> Option<T>)
    requires j < |lines| && ReadEvery(lines[..j], parse).Some?
    ensures parse(lines[j]).None? ==> ReadEvery(lines, parse).None?
    ensures parse(lines[j]).Some? ==>
      ReadEvery(lines[..j + 1], parse) == Some(ReadEvery(lines[..j], parse).value + [parse(lines[j]).value])
  {
    assert lines[..j + 1][..j] == lines[..j];
    if parse(lines[j]).None? {
      ReadEveryMeaning(lines, parse);
    }
  }

  /** The first word of `s`: its leading run of non-whitespace, which
      ends at whitespace or at the end of `s`. */
  function LeadingWord(s: string): (w: string)
    ensures |w| <= |s| && w == s[..|w|]
    ensures forall i :: 0 <= i < |w| ==> !IsSpace(w[i])
    ensures |w| < |s| ==> IsSpace(s[|w|])
    ensures |s| > 0 && !IsSpace(s[0]) ==> |w| > 0
  {
    if |s| == 0 || IsSpace(s[0]) then "" else [s[0]] + LeadingWord(s[1..])
  }

  /** `s.split_whitespace()`: the maximal runs of non-whitespace, in order. */
  function Words(s: string): (ws: seq<string>)
    decreases |s|
  {
    if |s| == 0 then []
    else if IsSpace(s[0]) then Words(s[1..])
    else
      var w := LeadingWord(s);
      [w] + Words(s[|w|..])
  }

  predicate Word(w: string)
  {
    |w| > 0 && forall i :: 0 <= i < |w| ==> !IsSpace(w[i])
  }

  /** Every piece `Words` returns is a non-empty run without whitespace. */
  lemma {:induction false} WordsAreWords(s: string)
    ensures forall k :: 0 <= k < |Words(s)| ==> Word(Words(s)[k])
    decreases |s|
  {
    if |s| > 0 {
      if IsSpace(s[0]) {
        WordsAreWords(s[1..]);
      } else {
        WordsAreWords(s[|LeadingWord(s)|..]);
      }
    }
  }

  /** A word followed by the end of the text or by whitespace is the
      leading word. */
  lemma {:induction false} LeadingWordOf(w: string, rest: string)
    requires Word(w) && (|rest| == 0 || IsSpace(rest[0]))
    ensures LeadingWord(w + rest) == w
    decreases |w|
  {
    var s := w + rest;
    assert s[0] == w[0] && s[1..] == w[1..] + rest;
    if |w| > 1 {
      LeadingWordOf(w[1..], rest);
    } else {
      assert s[1..] == rest;
    }
  }

  /** A word followed by whitespace splits off as the first word. */
  lemma WordsOfWordThen(w: string, sep: char, rest: string)
    requires Word(w) && IsSpace(sep)
    ensures Words(w + [sep] + rest) == [w] + Words(rest)
  {
    var s := w + [sep] + rest;
    LeadingWordOf(w, [sep] + rest);
    assert s == w + ([sep] + rest);
    assert s[|w|..] == [sep] + rest;
    assert ([sep] + rest)[1..] == rest;
  }

  /** A single word is read back as itself. */
  lemma WordsOfWord(w: string)
    requires Word(w)
    ensures Words(w) == [w]
  {
    LeadingWordOf(w, "");
    assert w + "" == w;
    assert w[|w|..] == [];
  }

  /** Words joined by one whitespace character each split back into those
      words. */
  lemma {:induction false} WordsOfJoin(ws: seq<string>, sep: char)
    requires |ws| >= 1 && IsSpace(sep)
    requires forall k :: 0 <= k < |ws| ==> Word(ws[k])
    ensures Words(Join(ws, [sep])) == ws
    decreases |ws|
  {
    if |ws| == 1 {
      WordsOfWord(ws[0]);
    } else {
      WordsOfJoin(ws[1..], sep);
      WordsOfWordThen(ws[0], sep, Join(ws[1..], [sep]));
      assert Join(ws, [sep]) == ws[0] + [sep] + Join(ws[1..], [sep]);
    }
  }
}

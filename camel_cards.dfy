/** Day 7 of 2023, Camel Cards: hands of five cards are ranked by their
    kind (five of a kind down to high card), ties broken card by card; the
    winnings are each hand's bid times its rank. */
module CamelCards {
  import opened Wrappers
  import opened Strings

  // ---------------------------------------------------------------
  // Cards

  /** `char::to_digit(10)`. */
  function Digit(c: char): (r: Option<nat>)
    ensures r.Some? <==> IsDigit(c)
    ensures r.Some? ==> r.value == c as int - '0' as int && r.value < 10
  {
    if IsDigit(c) then Some(c as int - '0' as int) else None
  }

  function IntCmp(a: int, b: int): (o: Ordering)
    ensures o == Less <==> a < b
    ensures o == Equal <==> a == b
    ensures o == Greater <==> a > b
  {
    if a < b then Less else if a == b then Equal else Greater
  }

  /** `Card::cmp`: any digit is below any other character, digits compare
      by value, and among the rest A > K > Q > J > anything else. Two
      different characters that are neither digits nor A, K, Q, J are each
      below the other. */
  function CardCmp(a: char, b: char): Ordering
  {
    match (Digit(a), Digit(b))
    case (None, Some(_)) => Greater
    case (Some(_), None) => Less
    case (Some(s), Some(o)) => IntCmp(s, o)
    case (None, None) =>
      if a == b then Equal
      else if a == 'A' then Greater
      else if b == 'A' then Less
      else if a == 'K' then Greater
      else if b == 'K' then Less
      else if a == 'Q' then Greater
      else if b == 'Q' then Less
      else if a == 'J' then Greater
      else if b == 'J' then Less
      else Less
  }

  /** The thirteen cards of the game, weakest first. */
  const Deck := "23456789TJQKA"

  /** The puzzle's strength of a card: 2 to 9 at face value, then T, J, Q,
      K and A as 10 to 14. */
  function Strength(c: char): nat
    requires c in Deck
  {
    match c
    case 'T' => 10
    case 'J' => 11
    case 'Q' => 12
    case 'K' => 13
    case 'A' => 14
    case _ => c as int - '0' as int
  }

  /** On the thirteen cards, `Card::cmp` is the comparison of strengths,
      so it is a total order there. */
  lemma CardCmpByStrength(a: char, b: char)
    requires a in Deck && b in Deck
    ensures CardCmp(a, b) == IntCmp(Strength(a), Strength(b))
  {
  }

  /** Off the deck it is not an order: 'X' and 'Y' are each below the
      other. */
  lemma CardCmpOffDeck()
    ensures CardCmp('X', 'Y') == Less && CardCmp('Y', 'X') == Less
  {
  }

  // ---------------------------------------------------------------
  // Kinds

  /** `HandType`, weakest first; the derived order compares kinds first. */
  datatype Kind = HighCard | OnePair | TwoPair | ThreeKind | FullHouse | FourKind | FiveKind

  function KindRank(k: Kind): nat
  {
    match k
    case HighCard => 0
    case OnePair => 1
    case TwoPair => 2
    case ThreeKind => 3
    case FullHouse => 4
    case FourKind => 5
    case FiveKind => 6
  }

  /** The distinct cards of a hand, in the order they first appear. */
  function FirstSeen(cards: seq<char>): seq<char>
    decreases |cards|
  {
    if |cards| == 0 then []
    else
      var init := cards[..|cards| - 1];
      var d0 := FirstSeen(init);
      if cards[|cards| - 1] in init then d0 else d0 + [cards[|cards| - 1]]
  }

  /** The distinct cards are those of the hand, each once. */
  lemma {:induction false} FirstSeenMeaning(cards: seq<char>)
    ensures var d := FirstSeen(cards);
      && (forall c :: c in d <==> c in cards)
      && (forall i, j :: 0 <= i < j < |d| ==> d[i] != d[j])
    decreases |cards|
  {
    if |cards| > 0 {
      var init := cards[..|cards| - 1];
      FirstSeenMeaning(init);
      assert cards == init + [cards[|cards| - 1]];
    }
  }

  /** How often each of the cards `d` occurs in `cards`. */
  function Counts(d: seq<char>, cards: seq<char>): (r: seq<nat>)
    ensures |r| == |d|
  {
    seq(|d|, i requires 0 <= i < |d| => multiset(cards)[d[i]])
  }

  function Sum(xs: seq<nat>): nat
  {
    if |xs| == 0 then 0 else xs[0] + Sum(xs[1..])
  }

  predicate SortedNats(xs: seq<nat>)
  {
    forall i, j :: 0 <= i < j < |xs| ==> xs[i] <= xs[j]
  }

  lemma SumCons(x: nat, xs: seq<nat>)
    ensures Sum([x] + xs) == x + Sum(xs)
  {
    assert ([x] + xs)[1..] == xs;
  }

  /** Inserting past the head keeps the head first. */
  lemma InsertPastHead(x: nat, xs: seq<nat>, rest: seq<nat>)
    requires |xs| > 0 && xs[0] < x && SortedNats(xs)
    requires SortedNats(rest) && multiset(rest) == multiset(xs[1..]) + multiset{x}
    ensures SortedNats([xs[0]] + rest)
    ensures multiset([xs[0]] + rest) == multiset(xs) + multiset{x}
  {
    assert xs == [xs[0]] + xs[1..];
    forall k | 0 <= k < |rest|
      ensures xs[0] <= rest[k]
    {
      assert rest[k] in multiset(rest);
      if rest[k] != x {
        assert rest[k] in xs[1..];
      }
    }
  }

  function Insert(x: nat, xs: seq<nat>): (r: seq<nat>)
    requires SortedNats(xs)
    ensures SortedNats(r) && multiset(r) == multiset(xs) + multiset{x}
    ensures Sum(r) == x + Sum(xs)
  {
    if |xs| == 0 || x <= xs[0] then
      SumCons(x, xs);
      [x] + xs
    else
      var rest := Insert(x, xs[1..]);
      InsertPastHead(x, xs, rest);
      SumCons(xs[0], rest);
      SumCons(xs[0], xs[1..]);
      assert xs == [xs[0]] + xs[1..];
      [xs[0]] + rest
  }

  /** `counts.sort()`: the counts in ascending order. */
  function SortNats(xs: seq<nat>): (r: seq<nat>)
    ensures SortedNats(r) && multiset(r) == multiset(xs) && Sum(r) == Sum(xs)
  {
    if |xs| == 0 then []
    else
      assert xs == [xs[0]] + xs[1..];
      Insert(xs[0], SortNats(xs[1..]))
  }

  /** The match on the sorted counts. */
  function KindOfSorted(s: seq<nat>): Option<Kind>
  {
    if s == [1, 1, 1, 1, 1] then Some(HighCard)
    else if s == [1, 1, 1, 2] then Some(OnePair)
    else if s == [1, 2, 2] then Some(TwoPair)
    else if s == [1, 1, 3] then Some(ThreeKind)
    else if s == [2, 3] then Some(FullHouse)
    else if s == [1, 4] then Some(FourKind)
    else if s == [5] then Some(FiveKind)
    else None
  }

  /** `get_type` as a value: None where it panics. */
  function KindOf(cards: seq<char>): Option<Kind>
  {
    KindOfSorted(SortNats(Counts(FirstSeen(cards), cards)))
  }

  lemma {:induction false} SumAppend(xs: seq<nat>, x: nat)
    ensures Sum(xs + [x]) == Sum(xs) + x
  {
    if |xs| > 0 {
      assert (xs + [x])[1..] == xs[1..] + [x];
      SumAppend(xs[1..], x);
    }
  }

  /** A positive sequence sums to at least its length. */
  lemma {:induction false} SumAtLeastLength(xs: seq<nat>)
    requires forall i :: 0 <= i < |xs| ==> xs[i] >= 1
    ensures Sum(xs) >= |xs|
  {
    if |xs| > 0 {
      SumAtLeastLength(xs[1..]);
    }
  }

  /** One more card `c` adds one to the total count over distinct cards
      `d` exactly when `c` is among them. */
  lemma {:induction false} CountsBump(d: seq<char>, s: seq<char>, c: char)
    requires forall i, j :: 0 <= i < j < |d| ==> d[i] != d[j]
    ensures Sum(Counts(d, s + [c])) == Sum(Counts(d, s)) + if c in d then 1 else 0
  {
    if |d| > 0 {
      assert Counts(d, s + [c])[1..] == Counts(d[1..], s + [c]);
      assert Counts(d, s)[1..] == Counts(d[1..], s);
      CountsBump(d[1..], s, c);
      assert c in d <==> c == d[0] || c in d[1..];
    }
  }

  /** The counts of the distinct cards are positive and add up to the
      number of cards. */
  lemma {:induction false} CountsSum(cards: seq<char>)
    ensures var xs := Counts(FirstSeen(cards), cards);
      Sum(xs) == |cards| && forall i :: 0 <= i < |xs| ==> xs[i] >= 1
    decreases |cards|
  {
    var d := FirstSeen(cards);
    FirstSeenMeaning(cards);
    assert forall i :: 0 <= i < |d| ==> d[i] in cards;
    if |cards| > 0 {
      var init, c := cards[..|cards| - 1], cards[|cards| - 1];
      assert cards == init + [c];
      var d0 := FirstSeen(init);
      FirstSeenMeaning(init);
      CountsSum(init);
      CountsBump(d0, init, c);
      if c !in init {
        assert Counts(d0 + [c], cards) == Counts(d0, cards) + [multiset(cards)[c]];
        SumAppend(Counts(d0, cards), multiset(cards)[c]);
      }
    }
  }

  /** A sorted positive sequence summing to 5 is one of the seven shapes. */
  lemma PartitionsOfFive(r: seq<nat>)
    requires SortedNats(r) && Sum(r) == 5
    requires forall i :: 0 <= i < |r| ==> r[i] >= 1
    ensures KindOfSorted(r).Some?
  {
    SumAtLeastLength(r);
    if |r| == 1 {
      PartsOfOne(r);
    } else if |r| == 2 {
      PartsOfTwo(r);
    } else if |r| == 3 {
      PartsOfThree(r);
    } else if |r| == 4 {
      PartsOfFour(r);
    } else if |r| == 5 {
      PartsOfFive(r);
    }
  }

  lemma SumOfTwo(a: nat, b: nat)
    ensures Sum([a, b]) == a + b
  {
    SumCons(b, []);
    SumCons(a, [b]);
    assert [b] == [b] + [] && [a, b] == [a] + [b];
  }

  lemma SumOfThree(a: nat, b: nat, c: nat)
    ensures Sum([a, b, c]) == a + b + c
  {
    SumOfTwo(b, c);
    SumCons(a, [b, c]);
    assert [a, b, c] == [a] + [b, c];
  }

  lemma SumOfFour(a: nat, b: nat, c: nat, d: nat)
    ensures Sum([a, b, c, d]) == a + b + c + d
  {
    SumOfThree(b, c, d);
    SumCons(a, [b, c, d]);
    assert [a, b, c, d] == [a] + [b, c, d];
  }

  lemma SumOfFive(a: nat, b: nat, c: nat, d: nat, e: nat)
    ensures Sum([a, b, c, d, e]) == a + b + c + d + e
  {
    SumOfFour(b, c, d, e);
    SumCons(a, [b, c, d, e]);
    assert [a, b, c, d, e] == [a] + [b, c, d, e];
  }

  lemma PartsOfOne(r: seq<nat>)
    requires SortedNats(r) && Sum(r) == 5 && |r| == 1
    requires forall i :: 0 <= i < |r| ==> r[i] >= 1
    ensures r == [5]
  {
    assert r == [r[0]];
    SumCons(r[0], []);
  }

  lemma PartsOfTwo(r: seq<nat>)
    requires SortedNats(r) && Sum(r) == 5 && |r| == 2
    requires forall i :: 0 <= i < |r| ==> r[i] >= 1
    ensures r == [1, 4] || r == [2, 3]
  {
    assert r == [r[0], r[1]];
    SumOfTwo(r[0], r[1]);
    assert r[0] <= r[1];
  }

  lemma PartsOfThree(r: seq<nat>)
    requires SortedNats(r) && Sum(r) == 5 && |r| == 3
    requires forall i :: 0 <= i < |r| ==> r[i] >= 1
    ensures r == [1, 1, 3] || r == [1, 2, 2]
  {
    assert r == [r[0], r[1], r[2]];
    SumOfThree(r[0], r[1], r[2]);
    assert r[0] <= r[1] <= r[2];
  }

  lemma PartsOfFour(r: seq<nat>)
    requires SortedNats(r) && Sum(r) == 5 && |r| == 4
    requires forall i :: 0 <= i < |r| ==> r[i] >= 1
    ensures r == [1, 1, 1, 2]
  {
    assert r == [r[0], r[1], r[2], r[3]];
    SumOfFour(r[0], r[1], r[2], r[3]);
    assert r[0] >= 1 && r[1] >= 1 && r[2] >= 1 && r[3] >= 1;
    assert r[0] <= r[1] <= r[2] <= r[3];
  }

  lemma PartsOfFive(r: seq<nat>)
    requires Sum(r) == 5 && |r| == 5
    requires forall i :: 0 <= i < |r| ==> r[i] >= 1
    ensures r == [1, 1, 1, 1, 1]
  {
    assert r == [r[0], r[1], r[2], r[3], r[4]];
    SumOfFive(r[0], r[1], r[2], r[3], r[4]);
    assert r[0] >= 1 && r[1] >= 1 && r[2] >= 1 && r[3] >= 1 && r[4] >= 1;
  }

  /** Each of the seven shapes adds up to 5. */
  lemma ShapesSumToFive(s: seq<nat>)
    requires KindOfSorted(s).Some?
    ensures Sum(s) == 5
  {
    SumOfFive(1, 1, 1, 1, 1);
    SumOfFour(1, 1, 1, 2);
    SumOfThree(1, 2, 2);
    SumOfThree(1, 1, 3);
    SumOfTwo(2, 3);
    SumOfTwo(1, 4);
    SumCons(5, []);
    assert [5] == [5] + [];
  }

  /** `get_type` returns exactly when the hand has five cards, whatever
      the cards are; every other length panics. */
  lemma KindOfIffFive(cards: seq<char>)
    ensures KindOf(cards).Some? <==> |cards| == 5
  {
    var xs := Counts(FirstSeen(cards), cards);
    var r := SortNats(xs);
    CountsSum(cards);
    assert forall i :: 0 <= i < |r| ==> r[i] >= 1 by {
      forall i | 0 <= i < |r|
        ensures r[i] >= 1
      {
        assert r[i] in multiset(xs);
      }
    }
    if |cards| == 5 {
      PartitionsOfFive(r);
    } else if KindOf(cards).Some? {
      ShapesSumToFive(r);
    }
  }

  /** `Hand::get_type`: count each card in a map, sort the counts and
      match them against the seven shapes; None where it panics. The map's
      values are collected in the order the cards first appear. */
  method GetType(cards: seq<char>) returns (r: Option<Kind>)
    ensures r == KindOf(cards)
  {
    var m: map<char, nat> := map[];
    for i := 0 to |cards|
      invariant forall c :: c in m <==> c in cards[..i]
      invariant forall c :: c in m ==> m[c] == multiset(cards[..i])[c]
    {
      assert cards[..i + 1] == cards[..i] + [cards[i]];
      m := m[cards[i] := if cards[i] in m then m[cards[i]] + 1 else 1];
    }
    assert cards[..|cards|] == cards;
    var counts: seq<nat> := [];
    for i := 0 to |cards|
      invariant counts == Counts(FirstSeen(cards[..i]), cards)
    {
      CountsStep(cards, i);
      if cards[i] !in cards[..i] {
        counts := counts + [m[cards[i]]];
      }
    }
    assert cards[..|cards|] == cards;
    r := KindOfSorted(SortNats(counts));
  }

  /** One more card of the hand adds its count when it is new. */
  lemma CountsStep(cards: seq<char>, i: nat)
    requires i < |cards|
    ensures Counts(FirstSeen(cards[..i + 1]), cards)
      == Counts(FirstSeen(cards[..i]), cards) + if cards[i] in cards[..i] then [] else [multiset(cards)[cards[i]]]
  {
    assert cards[..i + 1][..i] == cards[..i];
  }

  // ---------------------------------------------------------------
  // Hands

  datatype Hand = Hand(cards: seq<char>, bid: nat)

  datatype ParseHandError = ParseHandError

  /** `Hand::from_str`: the cards before the first space, the bid after
      it as a `u32`. */
  function ParseHand(s: string): (r: Result<Hand, ParseHandError>)
    ensures r.Ok? ==> var n := |r.value.cards|;
      StartsWith(s, r.value.cards + " ") && ParseNat(s[n + 1..]) == Some(r.value.bid)
      && r.value.bid < U32Limit
  {
    match SplitOnce(s, " ")
    case None => Err(ParseHandError)
    case Some((cards, bid)) =>
      match ParseU32(bid)
      case None => Err(ParseHandError)
      case Some(b) =>
        assert s[|cards| + 1..] == bid;
        Ok(Hand(cards, b))
  }

  /** A hand written as its cards, a space and its bid reads back as
      itself. */
  lemma ParseHandOf(cards: string, bid: nat)
    requires ' ' !in cards && bid < U32Limit
    ensures ParseHand(cards + " " + NatToString(bid)) == Ok(Hand(cards, bid))
  {
    var b := NatToString(bid);
    SplitOnSep(cards, " ", b);
    SplitOnJoin(b, " ");
    ParseNatToString(bid);
  }

  /** A line without a space, or whose text after the first space is not a
      `u32`, is a `ParseHandError`. */
  lemma ParseHandErrors(s: string)
    ensures ' ' !in s ==> ParseHand(s) == Err(ParseHandError)
    ensures forall cards, bid :: ' ' !in cards && s == cards + " " + bid && ParseU32(bid).None? ==>
      ParseHand(s) == Err(ParseHandError)
  {
    if ' ' !in s {
      SplitOnSep(s, " ", "");
    }
    forall cards, bid | ' ' !in cards && s == cards + " " + bid && ParseU32(bid).None?
      ensures ParseHand(s) == Err(ParseHandError)
    {
      SplitOnSep(cards, " ", bid);
      SplitOnJoin(bid, " ");
    }
  }

  // ---------------------------------------------------------------
  // Ordering hands

  /** The derived order on `Vec<Card>`: card by card with `Card::cmp`, a
      proper prefix first. */
  function CardsCmp(xs: seq<char>, ys: seq<char>): Ordering
  {
    if |xs| == 0 then (if |ys| == 0 then Equal else Less)
    else if |ys| == 0 then Greater
    else
      match CardCmp(xs[0], ys[0])
      case Equal => CardsCmp(xs[1..], ys[1..])
      case o => o
  }

  /** `Hand::cmp`: the kinds first, then the cards; None where either
      `get_type` panics. The bid plays no part. */
  function HandCmp(h1: Hand, h2: Hand): Option<Ordering>
  {
    match (KindOf(h1.cards), KindOf(h2.cards))
    case (Some(k1), Some(k2)) =>
      Some(if KindRank(k1) != KindRank(k2) then IntCmp(KindRank(k1), KindRank(k2))
           else CardsCmp(h1.cards, h2.cards))
    case _ => None
  }

  /** The same lexicographic order on sequences of numbers. */
  function LexCmp(xs: seq<int>, ys: seq<int>): Ordering
  {
    if |xs| == 0 then (if |ys| == 0 then Equal else Less)
    else if |ys| == 0 then Greater
    else if xs[0] != ys[0] then IntCmp(xs[0], ys[0])
    else LexCmp(xs[1..], ys[1..])
  }

  function Flip(o: Ordering): Ordering
  {
    match o
    case Less => Greater
    case Equal => Equal
    case Greater => Less
  }

  /** `LexCmp` is antisymmetric and Equal only on equal sequences. */
  lemma {:induction false} LexCmpFlip(xs: seq<int>, ys: seq<int>)
    ensures LexCmp(ys, xs) == Flip(LexCmp(xs, ys))
    ensures LexCmp(xs, ys) == Equal <==> xs == ys
  {
    if |xs| > 0 && |ys| > 0 && xs[0] == ys[0] {
      LexCmpFlip(xs[1..], ys[1..]);
      assert xs == [xs[0]] + xs[1..] && ys == [ys[0]] + ys[1..];
    }
  }

  /** `LexCmp` is transitive. */
  lemma {:induction false} LexCmpTrans(xs: seq<int>, ys: seq<int>, zs: seq<int>)
    requires LexCmp(xs, ys) != Greater && LexCmp(ys, zs) != Greater
    ensures LexCmp(xs, zs) != Greater
  {
    if |xs| > 0 && |ys| > 0 && |zs| > 0 && xs[0] == ys[0] == zs[0] {
      LexCmpTrans(xs[1..], ys[1..], zs[1..]);
    }
  }

  predicate OnDeck(cards: seq<char>)
  {
    forall i :: 0 <= i < |cards| ==> cards[i] in Deck
  }

  function Strengths(cards: seq<char>): (r: seq<int>)
    requires OnDeck(cards)
    ensures |r| == |cards|
  {
    seq(|cards|, i requires 0 <= i < |cards| => Strength(cards[i]))
  }

  /** On the thirteen cards the card-by-card order is the order of the
      strengths, and equal strengths mean equal cards. */
  lemma {:induction false} CardsCmpByStrength(xs: seq<char>, ys: seq<char>)
    requires OnDeck(xs) && OnDeck(ys)
    ensures CardsCmp(xs, ys) == LexCmp(Strengths(xs), Strengths(ys))
    ensures Strengths(xs) == Strengths(ys) ==> xs == ys
  {
    if |xs| > 0 && |ys| > 0 {
      CardCmpByStrength(xs[0], ys[0]);
      assert Strengths(xs)[1..] == Strengths(xs[1..]);
      assert Strengths(ys)[1..] == Strengths(ys[1..]);
      CardsCmpByStrength(xs[1..], ys[1..]);
      if Strengths(xs) == Strengths(ys) {
        assert Strengths(xs)[0] == Strength(xs[0]) && Strengths(ys)[0] == Strength(ys[0]);
        assert xs[0] == ys[0];
        assert xs == [xs[0]] + xs[1..] && ys == [ys[0]] + ys[1..];
      }
    }
  }

  /** A hand of five of the thirteen cards: one `get_type` classifies and
      `Card::cmp` orders. */
  predicate Valid(h: Hand)
  {
    |h.cards| == 5 && OnDeck(h.cards)
  }

  /** The kind and then the strengths of the cards. */
  function Key(h: Hand): seq<int>
    requires Valid(h)
  {
    KindOfIffFive(h.cards);
    [KindRank(KindOf(h.cards).value)] + Strengths(h.cards)
  }

  /** Between valid hands `Hand::cmp` always answers, and it is the
      lexicographic order of the keys; two hands it calls Equal hold the
      same cards. */
  lemma HandCmpByKey(h1: Hand, h2: Hand)
    requires Valid(h1) && Valid(h2)
    ensures HandCmp(h1, h2) == Some(LexCmp(Key(h1), Key(h2)))
    ensures HandCmp(h1, h2) == Some(Equal) ==> h1.cards == h2.cards
  {
    KindOfIffFive(h1.cards);
    KindOfIffFive(h2.cards);
    CardsCmpByStrength(h1.cards, h2.cards);
    LexCmpFlip(Key(h1), Key(h2));
    var k1, k2 := Key(h1), Key(h2);
    assert k1[1..] == Strengths(h1.cards) && k2[1..] == Strengths(h2.cards);
  }

  predicate HandLe(h1: Hand, h2: Hand)
  {
    HandCmp(h1, h2) != Some(Greater)
  }

  /** Over valid hands, `Hand::cmp` is a total preorder. */
  lemma HandLeTotal(h1: Hand, h2: Hand)
    requires Valid(h1) && Valid(h2)
    ensures HandLe(h1, h2) || HandLe(h2, h1)
    ensures HandCmp(h1, h2) == Some(Greater) <==> HandCmp(h2, h1) == Some(Less)
  {
    HandCmpByKey(h1, h2);
    HandCmpByKey(h2, h1);
    LexCmpFlip(Key(h1), Key(h2));
  }

  lemma HandLeTrans(h1: Hand, h2: Hand, h3: Hand)
    requires Valid(h1) && Valid(h2) && Valid(h3)
    requires HandLe(h1, h2) && HandLe(h2, h3)
    ensures HandLe(h1, h3)
  {
    HandCmpByKey(h1, h2);
    HandCmpByKey(h2, h3);
    HandCmpByKey(h1, h3);
    LexCmpTrans(Key(h1), Key(h2), Key(h3));
  }

  /** Every element is `le` every later one. */
  ghost predicate SortedBy<T>(s: seq<T>, le: (T, T) -> bool)
  {
    forall k, l {:trigger le(s[k], s[l])} :: 0 <= k < l < |s| ==> le(s[k], s[l])
  }

  /** Ascending under `Hand::cmp`, as `hands.sort()` leaves them. */
  ghost predicate Ranked(hs: seq<Hand>)
  {
    SortedBy(hs, HandLe)
  }

  /** The elements of `s` that `le` puts level with `x` (each at most the
      other), in their order in `s`. */
  function Ties<T>(s: seq<T>, x: T, le: (T, T) -> bool): (r: seq<T>)
    ensures |r| <= |s|
  {
    if |s| == 0 then []
    else (if le(x, s[0]) && le(s[0], x) then [s[0]] else []) + Ties(s[1..], x, le)
  }

  lemma {:induction false} TiesAppend<T>(a: seq<T>, b: seq<T>, x: T, le: (T, T) -> bool)
    ensures Ties(a + b, x, le) == Ties(a, x, le) + Ties(b, x, le)
  {
    if |a| > 0 {
      var h := if le(x, a[0]) && le(a[0], x) then [a[0]] else [];
      assert (a + b)[0] == a[0] && (a + b)[1..] == a[1..] + b;
      assert Ties(a + b, x, le) == h + Ties(a[1..] + b, x, le);
      TiesAppend(a[1..], b, x, le);
    } else {
      assert a + b == b;
    }
  }

  /** Every run of elements level with one another under `le` is the same
      in `v` as in `hs`: the order `hs` gives them is kept. */
  ghost predicate KeepsTies<T(!new)>(v: seq<T>, hs: seq<T>, le: (T, T) -> bool, ok: T -> bool)
  {
    forall x {:trigger Ties(v, x, le)} :: ok(x) ==> Ties(v, x, le) == Ties(hs, x, le)
  }

  /** Swapping two neighbours that are not both level with `x` leaves the
      elements level with `x` in the same order. */
  lemma SwapTiesAt<T>(v: seq<T>, j: int, x: T, le: (T, T) -> bool)
    requires 0 < j < |v|
    requires !(le(x, v[j - 1]) && le(v[j - 1], x) && le(x, v[j]) && le(v[j], x))
    ensures Ties(v[j - 1 := v[j]][j := v[j - 1]], x, le) == Ties(v, x, le)
  {
    var w := v[j - 1 := v[j]][j := v[j - 1]];
    var pre, a, b, post := v[..j - 1], v[j - 1], v[j], v[j + 1..];
    assert v == pre + ([a] + ([b] + post));
    assert w == pre + ([b] + ([a] + post));
    TiesAppend(pre, [a] + ([b] + post), x, le);
    TiesAppend([a], [b] + post, x, le);
    TiesAppend([b], post, x, le);
    TiesAppend(pre, [b] + ([a] + post), x, le);
    TiesAppend([b], [a] + post, x, le);
    TiesAppend([a], post, x, le);
  }

  /** Swapping two neighbours of which the first is not `le` the second
      keeps every run of level elements in order: under a transitive `le`
      the two are never both level with the same element. */
  lemma SwapTies<T(!new)>(v: seq<T>, hs: seq<T>, j: int, le: (T, T) -> bool, ok: T -> bool)
    requires 0 < j < |v|
    requires forall x, y, z {:trigger le(x, y), le(y, z)} :: ok(x) && ok(y) && ok(z) && le(x, y) && le(y, z) ==> le(x, z)
    requires ok(v[j - 1]) && ok(v[j])
    requires !le(v[j - 1], v[j])
    requires KeepsTies(v, hs, le, ok)
    ensures KeepsTies(v[j - 1 := v[j]][j := v[j - 1]], hs, le, ok)
  {
    forall x | ok(x)
      ensures Ties(v[j - 1 := v[j]][j := v[j - 1]], x, le) == Ties(hs, x, le)
    {
      var a, b := v[j - 1], v[j];
      assert !(le(a, x) && le(x, b));
      SwapTiesAt(v, j, x, le);
    }
  }

  /** `slice::sort` under a comparison `le` that is a total preorder on
      the values `ok` admits: an insertion sort by adjacent swaps on the
      vector `v`. Like the library's sort it is stable: elements level
      with one another keep their input order. */
  method SortBy<T(!new)>(hs: seq<T>, le: (T, T) -> bool, ghost ok: T -> bool) returns (v: seq<T>)
    requires forall x, y :: ok(x) && ok(y) ==> le(x, y) || le(y, x)
    requires forall x, y, z {:trigger le(x, y), le(y, z)} :: ok(x) && ok(y) && ok(z) && le(x, y) && le(y, z) ==> le(x, z)
    requires forall k :: 0 <= k < |hs| ==> ok(hs[k])
    ensures forall k, l :: 0 <= k < l < |v| ==> le(v[k], v[l])
    ensures multiset(v) == multiset(hs)
    ensures KeepsTies(v, hs, le, ok)
  {
    v := hs;
    for i := 0 to |v|
      invariant |v| == |hs| && multiset(v) == multiset(hs)
      invariant forall k :: 0 <= k < |v| ==> ok(v[k])
      invariant forall k, l :: 0 <= k < l < i ==> le(v[k], v[l])
      invariant KeepsTies(v, hs, le, ok)
    {
      v := SinkInto(v, i, hs, le, ok);
    }
  }

  /** One pass of the insertion sort: the element at `i` moves down past
      each neighbour it is not above, so the prefix up to `i` is sorted. */
  method SinkInto<T(!new)>(v0: seq<T>, i: int, ghost hs: seq<T>, le: (T, T) -> bool, ghost ok: T -> bool)
    returns (v: seq<T>)
    requires 0 <= i < |v0|
    requires forall x, y :: ok(x) && ok(y) ==> le(x, y) || le(y, x)
    requires forall x, y, z {:trigger le(x, y), le(y, z)} :: ok(x) && ok(y) && ok(z) && le(x, y) && le(y, z) ==> le(x, z)
    requires forall k :: 0 <= k < |v0| ==> ok(v0[k])
    requires forall k, l :: 0 <= k < l < i ==> le(v0[k], v0[l])
    requires KeepsTies(v0, hs, le, ok)
    ensures |v| == |v0| && multiset(v) == multiset(v0)
    ensures forall k :: 0 <= k < |v| ==> ok(v[k])
    ensures forall k, l :: 0 <= k < l < i + 1 ==> le(v[k], v[l])
    ensures KeepsTies(v, hs, le, ok)
  {
    v := v0;
    var j := i;
    while j > 0 && !le(v[j - 1], v[j])
      invariant 0 <= j <= i
      invariant |v| == |v0| && multiset(v) == multiset(v0)
      invariant forall k :: 0 <= k < |v| ==> ok(v[k])
      invariant forall k, l :: 0 <= k < l <= i && k != j && l != j ==> le(v[k], v[l])
      invariant forall l :: j < l <= i ==> le(v[j], v[l])
      invariant KeepsTies(v, hs, le, ok)
    {
      SwapDown(v, i, j, le, ok);
      SwapTies(v, hs, j, le, ok);
      v := v[j - 1 := v[j]][j := v[j - 1]];
      j := j - 1;
    }
    SettledSorted(v, i, j, le, ok);
  }

  /** Swapping the new element at `j` below a greater neighbour keeps
      every other pair in order. */
  lemma SwapDown<T>(v: seq<T>, i: int, j: int, le: (T, T) -> bool, ok: T -> bool)
    requires 0 < j <= i < |v|
    requires forall x, y :: ok(x) && ok(y) ==> le(x, y) || le(y, x)
    requires forall k :: 0 <= k < |v| ==> ok(v[k])
    requires forall k, l :: 0 <= k < l <= i && k != j && l != j ==> le(v[k], v[l])
    requires forall l :: j < l <= i ==> le(v[j], v[l])
    requires !le(v[j - 1], v[j])
    ensures var w := v[j - 1 := v[j]][j := v[j - 1]];
      (forall k, l :: 0 <= k < l <= i && k != j - 1 && l != j - 1 ==> le(w[k], w[l]))
      && (forall l :: j - 1 < l <= i ==> le(w[j - 1], w[l]))
      && multiset(w) == multiset(v)
  {
    var w := v[j - 1 := v[j]][j := v[j - 1]];
    assert le(v[j], v[j - 1]);
    forall k, l | 0 <= k < l <= i && k != j - 1 && l != j - 1
      ensures le(w[k], w[l])
    {
      if k == j {
        assert w[k] == v[j - 1];
      } else if l == j {
        assert w[l] == v[j - 1];
      }
    }
  }

  /** Once the new element at `j` has stopped moving, the prefix up to
      `i` is sorted. */
  lemma SettledSorted<T>(v: seq<T>, i: int, j: int, le: (T, T) -> bool, ok: T -> bool)
    requires 0 <= j <= i < |v|
    requires forall x, y, z {:trigger le(x, y), le(y, z)} :: ok(x) && ok(y) && ok(z) && le(x, y) && le(y, z) ==> le(x, z)
    requires forall k :: 0 <= k < |v| ==> ok(v[k])
    requires forall k, l :: 0 <= k < l <= i && k != j && l != j ==> le(v[k], v[l])
    requires forall l :: j < l <= i ==> le(v[j], v[l])
    requires j > 0 ==> le(v[j - 1], v[j])
    ensures forall k, l :: 0 <= k < l < i + 1 ==> le(v[k], v[l])
  {
    forall k, l | 0 <= k < l < i + 1
      ensures le(v[k], v[l])
    {
      if l == j && k < j - 1 {
        assert le(v[k], v[j - 1]) && le(v[j - 1], v[j]);
      }
    }
  }

  /** `get_lines_of_type`: the lines that parse as hands, in order; the
      others are skipped. */
  function KeepParsed(lines: seq<string>): (hs: seq<Hand>)
    ensures |hs| <= |lines|
    decreases |lines|
  {
    if |lines| == 0 then []
    else
      var rest := KeepParsed(lines[..|lines| - 1]);
      match ParseHand(lines[|lines| - 1])
      case Ok(h) => rest + [h]
      case Err(_) => rest
  }

  /** A hand is kept exactly when some line parses to it. */
  lemma {:induction false} KeepParsedMembers(lines: seq<string>)
    ensures forall h :: h in KeepParsed(lines) <==> exists i :: 0 <= i < |lines| && ParseHand(lines[i]) == Ok(h)
    decreases |lines|
  {
    if |lines| > 0 {
      var init := lines[..|lines| - 1];
      KeepParsedMembers(init);
      assert forall i :: 0 <= i < |init| ==> init[i] == lines[i];
    }
  }

  /** Each hand's bid times its rank, the rank counting from 1. */
  function Winnings(hs: seq<Hand>): nat
  {
    if |hs| == 0 then 0 else Winnings(hs[..|hs| - 1]) + |hs| * hs[|hs| - 1].bid
  }

  /** The hands `hs`, as a test on hands. */
  function Among(hs: seq<Hand>): Hand -> bool
  {
    h => h in hs
  }

  /** `Hand::cmp` keeps the `Ord` contract on the hands `hs`: every
      comparison between them answers, `Less` one way is `Greater` the
      other, and the order is transitive. */
  predicate Coherent(hs: seq<Hand>)
  {
    && (forall i, j :: 0 <= i < |hs| && 0 <= j < |hs| ==>
          HandCmp(hs[i], hs[j]).Some? && HandCmp(hs[j], hs[i]) == Some(Flip(HandCmp(hs[i], hs[j]).value)))
    && (forall i, j, k :: 0 <= i < |hs| && 0 <= j < |hs| && 0 <= k < |hs| && HandLe(hs[i], hs[j]) && HandLe(hs[j], hs[k]) ==>
          HandLe(hs[i], hs[k]))
  }

  /** Comparisons that answer and flip are total. */
  lemma FlipTotal(h1: Hand, h2: Hand)
    requires HandCmp(h1, h2).Some? && HandCmp(h2, h1) == Some(Flip(HandCmp(h1, h2).value))
    ensures HandLe(h1, h2) || HandLe(h2, h1)
  {
  }

  /** On coherent hands `Hand::cmp` is total, as the sort needs. */
  lemma CoherentTotal(hs: seq<Hand>)
    requires Coherent(hs)
    ensures forall x, y :: Among(hs)(x) && Among(hs)(y) ==> HandLe(x, y) || HandLe(y, x)
  {
    forall x, y | Among(hs)(x) && Among(hs)(y)
      ensures HandLe(x, y) || HandLe(y, x)
    {
      var i :| 0 <= i < |hs| && hs[i] == x;
      var j :| 0 <= j < |hs| && hs[j] == y;
      FlipTotal(hs[i], hs[j]);
    }
  }

  /** On coherent hands `Hand::cmp` is transitive, as the sort needs. */
  lemma CoherentTrans(hs: seq<Hand>)
    requires Coherent(hs)
    ensures forall x, y, z {:trigger HandLe(x, y), HandLe(y, z)} ::
      Among(hs)(x) && Among(hs)(y) && Among(hs)(z) && HandLe(x, y) && HandLe(y, z) ==> HandLe(x, z)
  {
    forall x, y, z | Among(hs)(x) && Among(hs)(y) && Among(hs)(z) && HandLe(x, y) && HandLe(y, z)
      ensures HandLe(x, z)
    {
      var i :| 0 <= i < |hs| && hs[i] == x;
      var j :| 0 <= j < |hs| && hs[j] == y;
      var k :| 0 <= k < |hs| && hs[k] == z;
      assert HandLe(hs[i], hs[j]) && HandLe(hs[j], hs[k]);
    }
  }

  /** Coherent hands are all five cards: a shorter or longer hand makes
      `get_type` panic the first time it is compared. */
  lemma CoherentFive(hs: seq<Hand>)
    requires Coherent(hs)
    ensures forall i :: 0 <= i < |hs| ==> |hs[i].cards| == 5
  {
    forall i | 0 <= i < |hs|
      ensures |hs[i].cards| == 5
    {
      assert HandCmp(hs[i], hs[i]).Some?;
      KindOfIffFive(hs[i].cards);
    }
  }

  /** Hands of five of the thirteen cards are always coherent. */
  lemma ValidCoherent(hs: seq<Hand>)
    requires forall i :: 0 <= i < |hs| ==> Valid(hs[i])
    ensures Coherent(hs)
  {
    forall i, j | 0 <= i < |hs| && 0 <= j < |hs|
      ensures HandCmp(hs[i], hs[j]).Some? && HandCmp(hs[j], hs[i]) == Some(Flip(HandCmp(hs[i], hs[j]).value))
    {
      HandCmpByKey(hs[i], hs[j]);
      HandCmpByKey(hs[j], hs[i]);
      LexCmpFlip(Key(hs[i]), Key(hs[j]));
    }
    forall i, j, k | 0 <= i < |hs| && 0 <= j < |hs| && 0 <= k < |hs| && HandLe(hs[i], hs[j]) && HandLe(hs[j], hs[k])
      ensures HandLe(hs[i], hs[k])
    {
      HandLeTrans(hs[i], hs[j], hs[k]);
    }
  }

  /** Five of the same card have that one card as their distinct card. */
  lemma FirstSeenSame(c: seq<char>)
    requires |c| == 5 && c[0] == c[1] == c[2] == c[3] == c[4]
    ensures FirstSeen(c) == [c[0]]
  {
    var c1, c2, c3, c4 := c[..1], c[..2], c[..3], c[..4];
    assert c1[..0] == [];
    assert FirstSeen(c1) == [c[0]];
    assert c2[..1] == c1;
    assert FirstSeen(c2) == [c[0]];
    assert c3[..2] == c2;
    assert FirstSeen(c3) == [c[0]];
    assert c4[..3] == c3;
    assert FirstSeen(c4) == [c[0]];
    assert c[..4] == c4;
  }

  /** Five of the same card are five of a kind. */
  lemma FiveSame(c: seq<char>)
    requires |c| == 5 && c[0] == c[1] == c[2] == c[3] == c[4]
    ensures KindOf(c) == Some(FiveKind)
  {
    FirstSeenSame(c);
    assert c == [c[0]] + [c[0]] + [c[0]] + [c[0]] + [c[0]];
    assert multiset(c)[c[0]] == 5;
    assert Counts([c[0]], c) == [5];
    assert SortNats([5]) == [5];
  }

  /** Two hands of the same kind, each of whose cards `Card::cmp` puts
      below the other's, break the contract. */
  lemma BelowEachOther(h1: Hand, h2: Hand, k: Kind)
    requires KindOf(h1.cards) == Some(k) && KindOf(h2.cards) == Some(k)
    requires CardsCmp(h1.cards, h2.cards) == Less && CardsCmp(h2.cards, h1.cards) == Less
    ensures !Coherent([h1, h2])
  {
    var hs := [h1, h2];
    assert HandCmp(hs[0], hs[1]) == Some(Less) && HandCmp(hs[1], hs[0]) == Some(Less);
  }

  /** Off the deck the contract can fail: `Card::cmp` puts 'T' below 'X'
      and 'X' below 'T', so TTTTT and XXXXX are each below the other. */
  lemma OffDeckIncoherent(h1: Hand, h2: Hand)
    requires Spells(h1.cards, "TTTTT") && Spells(h2.cards, "XXXXX")
    ensures !Coherent([h1, h2])
  {
    assert h1.cards[0] == 'T' && h2.cards[0] == 'X';
    assert CardCmp('T', 'X') == Less && CardCmp('X', 'T') == Less;
    FiveSame(h1.cards);
    FiveSame(h2.cards);
    CardsCmpStep(h1.cards, h2.cards);
    CardsCmpStep(h2.cards, h1.cards);
    BelowEachOther(h1, h2, FiveKind);
  }

  /** `part_one`: parse the hands, sort them, and add up bid times rank.
      With fewer than two hands the sort compares nothing. Otherwise the
      answer is `None` when `Hand::cmp` is not coherent on the hands: a
      hand that is not five cards panics in `get_type`, and cards off the
      deck can break the order the sort relies on. Hands that compare
      `Equal` keep their input order. */
  method PartOne(input: string) returns (r: Option<nat>, ghost ranked: seq<Hand>)
    ensures var hands := KeepParsed(Lines(input));
      (r.Some? <==> |hands| < 2 || Coherent(hands))
      && (r.Some? ==>
            Ranked(ranked) && multiset(ranked) == multiset(hands)
            && KeepsTies(ranked, hands, HandLe, Among(hands)) && r.value == Winnings(ranked))
  {
    var hands := KeepParsed(Lines(input));
    if |hands| < 2 {
      var total := TotalWinnings(hands);
      return Some(total), hands;
    }
    if !Coherent(hands) {
      return None, [];
    }
    CoherentTotal(hands);
    CoherentTrans(hands);
    var sorted := SortBy(hands, HandLe, Among(hands));
    var total := TotalWinnings(sorted);
    r, ranked := Some(total), sorted;
  }

  /** The sum of bid times rank over hands already in order. */
  method TotalWinnings(sorted: seq<Hand>) returns (total: nat)
    ensures total == Winnings(sorted)
  {
    total := 0;
    for i := 0 to |sorted|
      invariant total == Winnings(sorted[..i])
    {
      assert sorted[..i + 1][..i] == sorted[..i];
      total := total + (i + 1) * sorted[i].bid;
    }
    assert sorted[..|sorted|] == sorted;
  }

  /** Hands each at most the other hold the same cards. */
  lemma HandLeBoth(h1: Hand, h2: Hand)
    requires Valid(h1) && Valid(h2) && HandLe(h1, h2) && HandLe(h2, h1)
    ensures h1.cards == h2.cards
  {
    HandCmpByKey(h1, h2);
    HandCmpByKey(h2, h1);
    LexCmpFlip(Key(h1), Key(h2));
  }

  lemma TailMultiset<T>(s: seq<T>, t: seq<T>)
    requires |s| > 0 && |t| > 0 && s[0] == t[0] && multiset(s) == multiset(t)
    ensures multiset(s[1..]) == multiset(t[1..])
  {
    assert s == [s[0]] + s[1..] && t == [t[0]] + t[1..];
    assert multiset(s[1..]) == multiset(s) - multiset{s[0]};
    assert multiset(t[1..]) == multiset(t) - multiset{t[0]};
  }

  /** Two arrangements of the same elements, both ascending under `le`,
      are the same when `le` holds both ways only between equal elements. */
  lemma {:induction false} SortedUnique<T>(s: seq<T>, t: seq<T>, le: (T, T) -> bool)
    requires forall i, j :: 0 <= i < |s| && 0 <= j < |s| && le(s[i], s[j]) && le(s[j], s[i]) ==> s[i] == s[j]
    requires SortedBy(s, le) && SortedBy(t, le)
    requires multiset(s) == multiset(t)
    ensures s == t
  {
    if |s| > 0 {
      assert |t| == |multiset(t)| == |s|;
      assert s[0] in multiset(t) && t[0] in multiset(s);
      var k :| 0 <= k < |t| && t[k] == s[0];
      var m :| 0 <= m < |s| && s[m] == t[0];
      if k > 0 && m > 0 {
        assert le(t[0], t[k]) && le(s[0], s[m]);
      }
      assert s[0] == t[0];
      TailMultiset(s, t);
      SortedUnique(s[1..], t[1..], le);
      assert s == [s[0]] + s[1..] && t == [t[0]] + t[1..];
    }
  }

  /** When hands holding the same cards are the same hand, the ranking is
      fixed: any two ranked arrangements of the hands are the same, so the
      winnings do not depend on how the sort breaks ties. */
  lemma RankedUnique(s: seq<Hand>, t: seq<Hand>)
    requires forall i :: 0 <= i < |s| ==> Valid(s[i])
    requires forall i, j :: 0 <= i < |s| && 0 <= j < |s| && s[i].cards == s[j].cards ==> s[i] == s[j]
    requires Ranked(s) && Ranked(t) && multiset(s) == multiset(t)
    ensures s == t
  {
    forall i, j | 0 <= i < |s| && 0 <= j < |s| && HandLe(s[i], s[j]) && HandLe(s[j], s[i])
      ensures s[i] == s[j]
    {
      HandLeBoth(s[i], s[j]);
    }
    SortedUnique(s, t, HandLe);
  }

  /** Two arrangements of the same elements, both ascending under a total
      `le` and both keeping every run of level elements in the same
      order, are the same. */
  lemma {:induction false} SortedStableUnique<T(!new)>(s: seq<T>, t: seq<T>, le: (T, T) -> bool, ok: T -> bool)
    requires forall x, y :: ok(x) && ok(y) ==> le(x, y) || le(y, x)
    requires forall k :: 0 <= k < |s| ==> ok(s[k])
    requires SortedBy(s, le) && SortedBy(t, le)
    requires multiset(s) == multiset(t)
    requires forall x {:trigger Ties(s, x, le)} :: ok(x) ==> Ties(s, x, le) == Ties(t, x, le)
    ensures s == t
  {
    if |s| > 0 {
      assert |t| == |multiset(t)| == |s|;
      assert s[0] in multiset(t) && t[0] in multiset(s);
      var k :| 0 <= k < |t| && t[k] == s[0];
      var m :| 0 <= m < |s| && s[m] == t[0];
      var x := s[0];
      assert ok(x) && ok(t[0]);
      assert le(x, x);
      assert le(t[0], t[0]);
      if k > 0 {
        assert le(t[0], t[k]);
      }
      if m > 0 {
        assert le(s[0], s[m]);
      }
      assert le(x, t[0]) && le(t[0], x);
      assert Ties(s, x, le) == [s[0]] + Ties(s[1..], x, le);
      assert Ties(t, x, le) == [t[0]] + Ties(t[1..], x, le);
      assert Ties(s, x, le) == Ties(t, x, le);
      assert s[0] == Ties(s, x, le)[0] == t[0];
      TailMultiset(s, t);
      forall y | ok(y)
        ensures Ties(s[1..], y, le) == Ties(t[1..], y, le)
      {
        var h := if le(y, s[0]) && le(s[0], y) then [s[0]] else [];
        assert Ties(s, y, le) == h + Ties(s[1..], y, le);
        assert Ties(t, y, le) == h + Ties(t[1..], y, le);
        assert Ties(s, y, le) == Ties(t, y, le);
        assert Ties(s[1..], y, le) == Ties(s, y, le)[|h|..];
        assert Ties(t[1..], y, le) == Ties(t, y, le)[|h|..];
      }
      assert SortedBy(s[1..], le) by {
        forall a, b | 0 <= a < b < |s| - 1
          ensures le(s[1..][a], s[1..][b])
        {
          assert le(s[a + 1], s[b + 1]);
        }
      }
      assert SortedBy(t[1..], le) by {
        forall a, b | 0 <= a < b < |t| - 1
          ensures le(t[1..][a], t[1..][b])
        {
          assert le(t[a + 1], t[b + 1]);
        }
      }
      SortedStableUnique(s[1..], t[1..], le, ok);
      assert s == [s[0]] + s[1..] && t == [t[0]] + t[1..];
    }
  }

  /** On coherent hands the ranking `part_one` sums over is fixed: any two
      ascending arrangements of the hands that keep hands comparing
      `Equal` in input order are the same, so the winnings do not depend
      on the sort. */
  lemma RankingFixed(hands: seq<Hand>, s: seq<Hand>, t: seq<Hand>)
    requires Coherent(hands)
    requires Ranked(s) && multiset(s) == multiset(hands) && KeepsTies(s, hands, HandLe, Among(hands))
    requires Ranked(t) && multiset(t) == multiset(hands) && KeepsTies(t, hands, HandLe, Among(hands))
    ensures s == t
  {
    CoherentTotal(hands);
    forall k | 0 <= k < |s|
      ensures Among(hands)(s[k])
    {
      assert s[k] in multiset(hands);
    }
    forall x {:trigger Ties(s, x, HandLe)} | Among(hands)(x)
      ensures Ties(s, x, HandLe) == Ties(t, x, HandLe)
    {
      assert Ties(s, x, HandLe) == Ties(hands, x, HandLe);
    }
    SortedStableUnique(s, t, HandLe, Among(hands));
  }

  // ---------------------------------------------------------------
  // The puzzle's example

  /** A hand as the input writes it. */
  function HandLine(h: Hand): string
  {
    h.cards + " " + NatToString(h.bid)
  }

  const SampleHands := [Hand("32T3K", 765), Hand("T55J5", 684), Hand("KK677", 28), Hand("KTJJT", 220), Hand("QQQJA", 483)]

  function HandLines(hs: seq<Hand>): (ls: seq<string>)
    ensures |ls| == |hs|
  {
    seq(|hs|, i requires 0 <= i < |hs| => HandLine(hs[i]))
  }

  /** The example: the five hands, one per line. */
  const Sample := Join(HandLines(SampleHands), "\n")

  /** When every line parses, `get_lines_of_type` keeps them all. */
  lemma {:induction false} KeepParsedAll(lines: seq<string>, hs: seq<Hand>)
    requires |lines| == |hs|
    requires forall i :: 0 <= i < |lines| ==> ParseHand(lines[i]) == Ok(hs[i])
    ensures KeepParsed(lines) == hs
    decreases |lines|
  {
    if |lines| > 0 {
      var n := |lines| - 1;
      var init, front := lines[..n], hs[..n];
      forall i | 0 <= i < n
        ensures ParseHand(init[i]) == Ok(front[i])
      {
        assert init[i] == lines[i] && front[i] == hs[i];
      }
      KeepParsedAll(init, front);
      assert ParseHand(lines[n]) == Ok(hs[n]);
      assert KeepParsed(lines) == KeepParsed(init) + [hs[n]];
      assert hs == front + [hs[n]];
    }
  }

  /** Hands written one per line read back as themselves. */
  lemma HandLinesParse(hs: seq<Hand>)
    requires |hs| >= 1
    requires forall i :: 0 <= i < |hs| ==> ' ' !in hs[i].cards && '\n' !in hs[i].cards && hs[i].bid < U32Limit
    ensures KeepParsed(Lines(Join(HandLines(hs), "\n"))) == hs
  {
    var ls := HandLines(hs);
    forall i | 0 <= i < |hs|
      ensures '\n' !in ls[i] && ParseHand(ls[i]) == Ok(hs[i])
    {
      ParseHandOf(hs[i].cards, hs[i].bid);
      assert AllDigits(NatToString(hs[i].bid));
    }
    LinesOfJoin(ls);
    KeepParsedAll(ls, hs);
  }

  lemma SampleParses()
    ensures KeepParsed(Lines(Sample)) == SampleHands
  {
    HandLinesParse(SampleHands);
  }

  /** The sorted counts are the one ascending arrangement of them. */
  lemma SortNatsIs(xs: seq<nat>, t: seq<nat>)
    requires SortedNats(t) && multiset(t) == multiset(xs)
    ensures SortNats(xs) == t
  {
    SortedUnique(SortNats(xs), t, (x: nat, y: nat) => x <= y);
  }

  lemma OnePairShape()
    ensures KindOfSorted([1, 1, 1, 2]) == Some(OnePair)
  {
  }

  lemma TwoPairShape()
    ensures KindOfSorted([1, 2, 2]) == Some(TwoPair)
  {
  }

  lemma ThreeKindShape()
    ensures KindOfSorted([1, 1, 3]) == Some(ThreeKind)
  {
  }

  /** `KindOf` from the counts of the distinct cards: any ascending
      arrangement of them. */
  lemma KindOfCounts(c: seq<char>, xs: seq<nat>, t: seq<nat>)
    requires Counts(FirstSeen(c), c) == xs
    requires SortedNats(t) && multiset(t) == multiset(xs)
    ensures KindOf(c) == KindOfSorted(t)
  {
    SortNatsIs(xs, t);
  }

  lemma FirstSeenA(c: seq<char>)
    requires c == "32T3K"
    ensures FirstSeen(c) == "32TK"
  {
    var c1, c2, c3, c4 := c[..1], c[..2], c[..3], c[..4];
    assert c1[..0] == [];
    assert FirstSeen(c1) == "3";
    assert c2[..1] == c1;
    assert FirstSeen(c2) == "32";
    assert c3[..2] == c2;
    assert FirstSeen(c3) == "32T";
    assert c4[..3] == c3;
    assert FirstSeen(c4) == "32T";
    assert c[..4] == c4;
  }

  lemma CountsA(c: seq<char>)
    requires c == "32T3K"
    ensures Counts("32TK", c) == [2, 1, 1, 1]
  {
    assert c == ['3'] + ['2'] + ['T'] + ['3'] + ['K'];
    assert multiset(c) == multiset{'3', '2', 'T', '3', 'K'};
  }

  lemma KindA(c: seq<char>)
    requires Spells(c, "32T3K")
    ensures KindOf(c) == Some(OnePair)
  {
    SpellsIs(c, "32T3K");
    FirstSeenA(c);
    CountsA(c);
    KindOfCounts(c, [2, 1, 1, 1], [1, 1, 1, 2]);
    OnePairShape();
  }

  lemma FirstSeenB(c: seq<char>)
    requires c == "T55J5"
    ensures FirstSeen(c) == "T5J"
  {
    var c1, c2, c3, c4 := c[..1], c[..2], c[..3], c[..4];
    assert c1[..0] == [];
    assert FirstSeen(c1) == "T";
    assert c2[..1] == c1;
    assert FirstSeen(c2) == "T5";
    assert c3[..2] == c2;
    assert FirstSeen(c3) == "T5";
    assert c4[..3] == c3;
    assert FirstSeen(c4) == "T5J";
    assert c[..4] == c4;
  }

  lemma CountsB(c: seq<char>)
    requires c == "T55J5"
    ensures Counts("T5J", c) == [1, 3, 1]
  {
    assert c == ['T'] + ['5'] + ['5'] + ['J'] + ['5'];
    assert multiset(c) == multiset{'T', '5', '5', 'J', '5'};
  }

  lemma KindB(c: seq<char>)
    requires Spells(c, "T55J5")
    ensures KindOf(c) == Some(ThreeKind)
  {
    SpellsIs(c, "T55J5");
    FirstSeenB(c);
    CountsB(c);
    KindOfCounts(c, [1, 3, 1], [1, 1, 3]);
    ThreeKindShape();
  }

  lemma FirstSeenC(c: seq<char>)
    requires c == "KK677"
    ensures FirstSeen(c) == "K67"
  {
    var c1, c2, c3, c4 := c[..1], c[..2], c[..3], c[..4];
    assert c1[..0] == [];
    assert FirstSeen(c1) == "K";
    assert c2[..1] == c1;
    assert FirstSeen(c2) == "K";
    assert c3[..2] == c2;
    assert FirstSeen(c3) == "K6";
    assert c4[..3] == c3;
    assert FirstSeen(c4) == "K67";
    assert c[..4] == c4;
  }

  lemma CountsC(c: seq<char>)
    requires c == "KK677"
    ensures Counts("K67", c) == [2, 1, 2]
  {
    assert c == ['K'] + ['K'] + ['6'] + ['7'] + ['7'];
    assert multiset(c) == multiset{'K', 'K', '6', '7', '7'};
  }

  lemma KindC(c: seq<char>)
    requires Spells(c, "KK677")
    ensures KindOf(c) == Some(TwoPair)
  {
    SpellsIs(c, "KK677");
    FirstSeenC(c);
    CountsC(c);
    KindOfCounts(c, [2, 1, 2], [1, 2, 2]);
    TwoPairShape();
  }

  lemma FirstSeenD(c: seq<char>)
    requires c == "KTJJT"
    ensures FirstSeen(c) == "KTJ"
  {
    var c1, c2, c3, c4 := c[..1], c[..2], c[..3], c[..4];
    assert c1[..0] == [];
    assert FirstSeen(c1) == "K";
    assert c2[..1] == c1;
    assert FirstSeen(c2) == "KT";
    assert c3[..2] == c2;
    assert FirstSeen(c3) == "KTJ";
    assert c4[..3] == c3;
    assert FirstSeen(c4) == "KTJ";
    assert c[..4] == c4;
  }

  lemma CountsD(c: seq<char>)
    requires c == "KTJJT"
    ensures Counts("KTJ", c) == [1, 2, 2]
  {
    assert c == ['K'] + ['T'] + ['J'] + ['J'] + ['T'];
    assert multiset(c) == multiset{'K', 'T', 'J', 'J', 'T'};
  }

  lemma KindD(c: seq<char>)
    requires Spells(c, "KTJJT")
    ensures KindOf(c) == Some(TwoPair)
  {
    SpellsIs(c, "KTJJT");
    FirstSeenD(c);
    CountsD(c);
    KindOfCounts(c, [1, 2, 2], [1, 2, 2]);
    TwoPairShape();
  }

  lemma FirstSeenE(c: seq<char>)
    requires c == "QQQJA"
    ensures FirstSeen(c) == "QJA"
  {
    var c1, c2, c3, c4 := c[..1], c[..2], c[..3], c[..4];
    assert c1[..0] == [];
    assert FirstSeen(c1) == "Q";
    assert c2[..1] == c1;
    assert FirstSeen(c2) == "Q";
    assert c3[..2] == c2;
    assert FirstSeen(c3) == "Q";
    assert c4[..3] == c3;
    assert FirstSeen(c4) == "QJ";
    assert c[..4] == c4;
  }

  lemma CountsE(c: seq<char>)
    requires c == "QQQJA"
    ensures Counts("QJA", c) == [3, 1, 1]
  {
    assert c == ['Q'] + ['Q'] + ['Q'] + ['J'] + ['A'];
    assert multiset(c) == multiset{'Q', 'Q', 'Q', 'J', 'A'};
  }

  lemma KindE(c: seq<char>)
    requires Spells(c, "QQQJA")
    ensures KindOf(c) == Some(ThreeKind)
  {
    SpellsIs(c, "QQQJA");
    FirstSeenE(c);
    CountsE(c);
    KindOfCounts(c, [3, 1, 1], [1, 1, 3]);
    ThreeKindShape();
  }

  /** The kinds of the example's hands. */
  lemma SampleKinds()
    ensures KindOf("32T3K") == Some(OnePair)
    ensures KindOf("T55J5") == Some(ThreeKind)
    ensures KindOf("KK677") == Some(TwoPair)
    ensures KindOf("KTJJT") == Some(TwoPair)
    ensures KindOf("QQQJA") == Some(ThreeKind)
  {
    KindA("32T3K");
    KindB("T55J5");
    KindC("KK677");
    KindD("KTJJT");
    KindE("QQQJA");
  }

  /** A sequence each of whose elements is at most the next is ascending,
      for a transitive `le`. */
  lemma {:induction false} AdjacentSorted<T>(e: seq<T>, le: (T, T) -> bool, ok: T -> bool)
    requires forall x, y, z {:trigger le(x, y), le(y, z)} :: ok(x) && ok(y) && ok(z) && le(x, y) && le(y, z) ==> le(x, z)
    requires forall i :: 0 <= i < |e| ==> ok(e[i])
    requires forall i :: 0 <= i < |e| - 1 ==> le(e[i], e[i + 1])
    ensures SortedBy(e, le)
    decreases |e|
  {
    if |e| > 1 {
      var init := e[..|e| - 1];
      AdjacentSorted(init, le, ok);
      forall k | 0 <= k < |e| - 1
        ensures le(e[k], e[|e| - 1])
      {
        if k < |e| - 2 {
          assert le(init[k], init[|e| - 2]);
        }
      }
    }
  }

  /** `Hand::cmp` once both kinds are known. */
  lemma HandCmpOfKinds(h1: Hand, h2: Hand, k1: Kind, k2: Kind)
    requires KindOf(h1.cards) == Some(k1) && KindOf(h2.cards) == Some(k2)
    ensures KindRank(k1) < KindRank(k2) ==> HandCmp(h1, h2) == Some(Less)
    ensures k1 == k2 ==> HandCmp(h1, h2) == Some(CardsCmp(h1.cards, h2.cards))
  {
  }

  predicate KindsOrdered(h1: Hand, h2: Hand, k1: Kind, k2: Kind)
  {
    KindOf(h1.cards) == Some(k1) && KindOf(h2.cards) == Some(k2) && KindRank(k1) < KindRank(k2)
  }

  /** A hand of a lower kind ranks below one of a higher kind. */
  lemma LowerKindFirst(h1: Hand, h2: Hand, k1: Kind, k2: Kind)
    requires KindsOrdered(h1, h2, k1, k2)
    ensures HandLe(h1, h2)
  {
    HandCmpOfKinds(h1, h2, k1, k2);
  }

  /** The example's hands from weakest to strongest. */
  const SampleRanked := [Hand("32T3K", 765), Hand("KTJJT", 220), Hand("KK677", 28), Hand("T55J5", 684), Hand("QQQJA", 483)]

  /** Hands whose first cards differ compare by those. */
  lemma CardsCmpStep(xs: seq<char>, ys: seq<char>)
    requires |xs| > 0 && |ys| > 0
    ensures CardCmp(xs[0], ys[0]) != Equal ==> CardsCmp(xs, ys) == CardCmp(xs[0], ys[0])
    ensures CardCmp(xs[0], ys[0]) == Equal ==> CardsCmp(xs, ys) == CardsCmp(xs[1..], ys[1..])
  {
  }

  lemma CardsLess2(xs: seq<char>, ys: seq<char>)
    requires Spells(xs, "KTJJT") && Spells(ys, "KK677")
    ensures CardsCmp(xs, ys) == Less
  {
    CardsCmpStep(xs, ys);
    CardsCmpStep(xs[1..], ys[1..]);
  }

  lemma CardsLess4(xs: seq<char>, ys: seq<char>)
    requires Spells(xs, "T55J5") && Spells(ys, "QQQJA")
    ensures CardsCmp(xs, ys) == Less
  {
    CardsCmpStep(xs, ys);
  }

  lemma SampleStep1(h1: Hand, h2: Hand)
    requires Spells(h1.cards, "32T3K") && Spells(h2.cards, "KTJJT")
    ensures KindsOrdered(h1, h2, OnePair, TwoPair)
  {
    KindA(h1.cards);
    KindD(h2.cards);
  }

  lemma SampleStep2(h1: Hand, h2: Hand)
    requires Spells(h1.cards, "KTJJT") && Spells(h2.cards, "KK677")
    ensures HandLe(h1, h2)
  {
    KindD(h1.cards);
    KindC(h2.cards);
    CardsLess2(h1.cards, h2.cards);
    HandCmpOfKinds(h1, h2, TwoPair, TwoPair);
  }

  lemma SampleStep3(h1: Hand, h2: Hand)
    requires Spells(h1.cards, "KK677") && Spells(h2.cards, "T55J5")
    ensures KindsOrdered(h1, h2, TwoPair, ThreeKind)
  {
    KindC(h1.cards);
    KindB(h2.cards);
  }

  lemma SampleStep4(h1: Hand, h2: Hand)
    requires Spells(h1.cards, "T55J5") && Spells(h2.cards, "QQQJA")
    ensures HandLe(h1, h2)
  {
    KindB(h1.cards);
    KindE(h2.cards);
    CardsLess4(h1.cards, h2.cards);
    HandCmpOfKinds(h1, h2, ThreeKind, ThreeKind);
  }

  lemma HandLeTotalAll()
    ensures forall x, y :: Valid(x) && Valid(y) ==> HandLe(x, y) || HandLe(y, x)
  {
    forall x, y | Valid(x) && Valid(y)
      ensures HandLe(x, y) || HandLe(y, x)
    {
      HandLeTotal(x, y);
    }
  }

  lemma HandLeTransAll()
    ensures forall x, y, z {:trigger HandLe(x, y), HandLe(y, z)} :: Valid(x) && Valid(y) && Valid(z) && HandLe(x, y) && HandLe(y, z) ==> HandLe(x, z)
  {
    forall x, y, z | Valid(x) && Valid(y) && Valid(z) && HandLe(x, y) && HandLe(y, z)
      ensures HandLe(x, z)
    {
      HandLeTrans(x, y, z);
    }
  }

  /** Five elements, each `le` the next, are ascending. */
  lemma AscendingFive<T>(a: T, b: T, c: T, d: T, e: T, le: (T, T) -> bool, ok: T -> bool)
    requires forall x, y, z {:trigger le(x, y), le(y, z)} :: ok(x) && ok(y) && ok(z) && le(x, y) && le(y, z) ==> le(x, z)
    requires ok(a) && ok(b) && ok(c) && ok(d) && ok(e)
    requires le(a, b) && le(b, c) && le(c, d) && le(d, e)
    ensures SortedBy([a, b, c, d, e], le)
  {
    AdjacentSorted([a, b, c, d, e], le, ok);
  }

  lemma ValidA(h: Hand)
    requires Spells(h.cards, "32T3K") || Spells(h.cards, "KTJJT") || Spells(h.cards, "KK677") || Spells(h.cards, "T55J5") || Spells(h.cards, "QQQJA")
    ensures Valid(h)
  {
  }

  /** `c` holds the cards `w`, stated card by card. */
  predicate Spells(c: seq<char>, w: string)
  {
    |c| == |w| && forall i :: 0 <= i < |w| ==> c[i] == w[i]
  }

  lemma SpellsIs(c: seq<char>, w: string)
    requires Spells(c, w)
    ensures c == w
  {
  }

  /** The example's hands in the order the ranking puts them. */
  predicate SampleInOrder(h0: Hand, h1: Hand, h2: Hand, h3: Hand, h4: Hand)
  {
    Spells(h0.cards, "32T3K") && Spells(h1.cards, "KTJJT") && Spells(h2.cards, "KK677")
    && Spells(h3.cards, "T55J5") && Spells(h4.cards, "QQQJA")
  }

  lemma SampleRankedAscending(h0: Hand, h1: Hand, h2: Hand, h3: Hand, h4: Hand)
    requires SampleInOrder(h0, h1, h2, h3, h4)
    ensures Ranked([h0, h1, h2, h3, h4])
  {
    SampleStep1(h0, h1);
    LowerKindFirst(h0, h1, OnePair, TwoPair);
    SampleStep2(h1, h2);
    SampleStep3(h2, h3);
    LowerKindFirst(h2, h3, TwoPair, ThreeKind);
    SampleStep4(h3, h4);
    ValidA(h0); ValidA(h1); ValidA(h2); ValidA(h3); ValidA(h4);
    HandLeTransAll();
    AscendingFive(h0, h1, h2, h3, h4, HandLe, Valid);
  }

  lemma WinningsSnoc(hs: seq<Hand>, h: Hand)
    ensures Winnings(hs + [h]) == Winnings(hs) + (|hs| + 1) * h.bid
  {
    assert (hs + [h])[..|hs|] == hs;
  }

  lemma WinningsFive(h0: Hand, h1: Hand, h2: Hand, h3: Hand, h4: Hand)
    ensures Winnings([h0, h1, h2, h3, h4]) == h0.bid + 2 * h1.bid + 3 * h2.bid + 4 * h3.bid + 5 * h4.bid
  {
    WinningsSnoc([], h0);
    WinningsSnoc([h0], h1);
    WinningsSnoc([h0, h1], h2);
    WinningsSnoc([h0, h1, h2], h3);
    WinningsSnoc([h0, h1, h2, h3], h4);
    assert [h0, h1, h2, h3, h4] == [h0, h1, h2, h3] + [h4];
    assert [h0, h1, h2, h3] == [h0, h1, h2] + [h3];
    assert [h0, h1, h2] == [h0, h1] + [h2];
    assert [h0, h1] == [h0] + [h1];
    assert [h0] == [] + [h0];
  }

  lemma SampleValidDistinct(h0: Hand, h1: Hand, h2: Hand, h3: Hand, h4: Hand)
    requires SampleInOrder(h0, h1, h2, h3, h4)
    ensures var e := [h0, h1, h2, h3, h4];
      (forall i :: 0 <= i < |e| ==> Valid(e[i]))
      && forall i, j :: 0 <= i < |e| && 0 <= j < |e| && e[i].cards == e[j].cards ==> e[i] == e[j]
  {
    assert h0.cards[0] == '3' && h1.cards[1] == 'T' && h2.cards[1] == 'K';
    assert h3.cards[0] == 'T' && h4.cards[0] == 'Q';
  }

  /** Five hands with different cards, ranked, win 6440 in all. */
  lemma SampleWinningsOf(ranked: seq<Hand>, h0: Hand, h1: Hand, h2: Hand, h3: Hand, h4: Hand)
    requires SampleInOrder(h0, h1, h2, h3, h4)
    requires h0.bid == 765 && h1.bid == 220 && h2.bid == 28 && h3.bid == 684 && h4.bid == 483
    requires Ranked(ranked) && multiset(ranked) == multiset([h0, h1, h2, h3, h4])
    ensures Winnings(ranked) == 6440
  {
    SampleRankedAscending(h0, h1, h2, h3, h4);
    SampleValidDistinct(h0, h1, h2, h3, h4);
    WinningsFive(h0, h1, h2, h3, h4);
    RankedUnique([h0, h1, h2, h3, h4], ranked);
  }

  /** Any ranking of the example's hands wins 6440. */
  lemma SampleWinnings(ranked: seq<Hand>, hs: seq<Hand>)
    requires hs == SampleHands
    requires Ranked(ranked) && multiset(ranked) == multiset(hs)
    ensures Winnings(ranked) == 6440
  {
    assert multiset(hs) == multiset([hs[0], hs[3], hs[2], hs[1], hs[4]]);
    SampleWinningsOf(ranked, hs[0], hs[3], hs[2], hs[1], hs[4]);
  }

  lemma SampleValid(hs: seq<Hand>)
    requires hs == SampleHands
    ensures forall i :: 0 <= i < |hs| ==> Valid(hs[i])
  {
    ValidA(hs[0]); ValidA(hs[1]); ValidA(hs[2]); ValidA(hs[3]); ValidA(hs[4]);
  }

  /** A valid hand and another with the same cards are coherent and
      already ranked in either order. */
  lemma SameCardsRanked(h0: Hand, h1: Hand)
    requires Valid(h0) && h1.cards == h0.cards
    ensures Coherent([h0, h1]) && Ranked([h0, h1])
  {
    ValidCoherent([h0, h1]);
    HandCmpByKey(h0, h1);
    LexCmpFlip(Key(h0), Key(h1));
    assert HandLe(h0, h1);
  }

  lemma WinningsTwo(h0: Hand, h1: Hand)
    ensures Winnings([h0, h1]) == h0.bid + 2 * h1.bid
  {
    WinningsSnoc([], h0);
    WinningsSnoc([h0], h1);
    assert [h0] == [] + [h0] && [h0, h1] == [h0] + [h1];
  }

  /** Two hands with the same cards compare `Equal`, so `part_one` keeps
      them in input order: 23456 bidding 1 and then 23456 bidding 2 win
      1 × 1 + 2 × 2 = 5, never 1 × 2 + 2 × 1. */
  lemma TiesKeepInputOrder(h0: Hand, h1: Hand, ranked: seq<Hand>)
    requires Spells(h0.cards, "23456") && h1.cards == h0.cards && h0.bid == 1 && h1.bid == 2
    requires var hands := [h0, h1];
      Ranked(ranked) && multiset(ranked) == multiset(hands) && KeepsTies(ranked, hands, HandLe, Among(hands))
    ensures Winnings(ranked) == 5
  {
    assert Valid(h0);
    SameCardsRanked(h0, h1);
    RankingFixed([h0, h1], ranked, [h0, h1]);
    WinningsTwo(h0, h1);
  }

  /** `part_one` on the example: 6440. */
  method PartOneSample() returns (r: Option<nat>)
    ensures r == Some(6440)
  {
    ghost var ranked;
    r, ranked := PartOne(Sample);
    SampleParses();
    SampleValid(SampleHands);
    ValidCoherent(SampleHands);
    SampleWinnings(ranked, SampleHands);
  }
}
